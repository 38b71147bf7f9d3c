// Python 2 built-ins that the extractor leans on, stated with their exact
// semantics: str.strip(), str.split(sep), sep.join(parts), str.lower(),
// str.endswith(suffix), sequence slicing s[start:stop], and the Windows
// path helpers os.path.basename and os.path.join.

module Results {

  datatype Option<+T> = None | Some(value: T)

  /** The ways the modelled code raises instead of returning. */
  datatype Error =
    | Ragged         // numpy cannot build a rectangular array from the rows (ValueError)
    | NotNumeric     // a token is not a float literal (ValueError from astype(float))
    | ShapeMismatch  // np.add on horizontal and vertical blocks of different shapes (ValueError)
    | TooFewColors   // input_colors[n] past the end of the palette (IndexError)
    | NotAnInteger   // int(plots_down) on text that is not an integer (ValueError)
    | ZeroDivision   // len(all_paths) / float(0) (ZeroDivisionError)

  datatype Result<+T> = Ok(value: T) | Err(error: Error)
}

module PyText {

  /** Whitespace as Python 2's byte-string strip() sees it. */
  predicate IsSpace(c: char) {
    c == ' ' || c == '\t' || c == '\n' || c == '\r' || c == '\U{000B}' || c == '\U{000C}'
  }

  /** s.lstrip() */
  function StripLeft(s: string): (r: string)
    ensures |r| <= |s|
  {
    if s != [] && IsSpace(s[0]) then StripLeft(s[1..]) else s
  }

  /** s.rstrip() */
  function StripRight(s: string): (r: string)
    ensures |r| <= |s|
  {
    if s != [] && IsSpace(s[|s| - 1]) then StripRight(s[..|s| - 1]) else s
  }

  /** s.strip() */
  function Strip(s: string): (r: string)
    ensures |r| <= |s|
  {
    StripRight(StripLeft(s))
  }

  /** lstrip() keeps a suffix, cuts only whitespace, and what it keeps does
      not start with whitespace. */
  lemma {:induction false} StripLeftSpec(s: string)
    ensures StripLeft(s) == s[|s| - |StripLeft(s)|..]
    ensures forall i :: 0 <= i < |s| - |StripLeft(s)| ==> IsSpace(s[i])
    ensures StripLeft(s) == [] || !IsSpace(StripLeft(s)[0])
  {
    if s != [] && IsSpace(s[0]) {
      StripLeftSpec(s[1..]);
    }
  }

  /** rstrip() keeps a prefix, cuts only whitespace, and what it keeps does
      not end with whitespace. */
  lemma {:induction false} StripRightSpec(s: string)
    ensures StripRight(s) == s[..|StripRight(s)|]
    ensures forall i :: |StripRight(s)| <= i < |s| ==> IsSpace(s[i])
    ensures StripRight(s) == [] || !IsSpace(StripRight(s)[|StripRight(s)| - 1])
  {
    if s != [] && IsSpace(s[|s| - 1]) {
      StripRightSpec(s[..|s| - 1]);
    }
  }

  /** What strip() keeps is the infix of s that starts after the leading
      whitespace and neither starts nor ends with whitespace; everything cut
      away on either side is whitespace. */
  lemma StripKeepsInfix(s: string)
    ensures var a, r := |s| - |StripLeft(s)|, Strip(s);
            a + |r| <= |s| && r == s[a..a + |r|]
            && (forall i :: 0 <= i < a ==> IsSpace(s[i]))
            && (forall i :: a + |r| <= i < |s| ==> IsSpace(s[i]))
            && (r == [] || (!IsSpace(r[0]) && !IsSpace(r[|r| - 1])))
  {
    var left := StripLeft(s);
    StripLeftSpec(s);
    StripRightSpec(left);
    var r := Strip(s);
    var a := |s| - |left|;
    assert left == s[a..] && r == left[..|r|];
    assert forall i :: a + |r| <= i < |s| ==> s[i] == left[i - a];
  }

  /** Concatenation regroups freely. */
  lemma ConcatAssoc<T>(a: seq<T>, b: seq<T>, c: seq<T>)
    ensures (a + b) + c == a + (b + c)
  {
  }

  /** sep.join(parts) */
  function Join(parts: seq<string>, sep: char): string
  {
    if parts == [] then []
    else if |parts| == 1 then parts[0]
    else parts[0] + [sep] + Join(parts[1..], sep)
  }

  /** s.split(sep) with an explicit one-character separator, read from the
      front one character at a time: a separator opens a new, empty first
      field, any other character joins the front of the first field. Never
      empty. */
  function Split(s: string, sep: char): (r: seq<string>)
    ensures |r| >= 1
  {
    if s == [] then [[]]
    else
      var r := Split(s[1..], sep);
      if s[0] == sep then [[]] + r else [[s[0]] + r[0]] + r[1..]
  }

  /** No field holds the separator. */
  lemma {:induction false} SplitFieldsFree(s: string, sep: char)
    ensures forall i :: 0 <= i < |Split(s, sep)| ==> sep !in Split(s, sep)[i]
  {
    if s != [] {
      var r := Split(s[1..], sep);
      SplitFieldsFree(s[1..], sep);
      var out := Split(s, sep);
      forall k | 0 <= k < |out| ensures sep !in out[k] {
        if s[0] == sep {
          if k > 0 { assert out[k] == r[k - 1]; }
        } else if k > 0 {
          assert out[k] == r[k];
        } else {
          assert sep !in r[0];
        }
      }
    }
  }

  /** Split is undone by Join, and no part holds the separator. */
  lemma {:induction false} JoinSplit(s: string, sep: char)
    ensures forall i :: 0 <= i < |Split(s, sep)| ==> sep !in Split(s, sep)[i]
    ensures Join(Split(s, sep), sep) == s
  {
    SplitFieldsFree(s, sep);
    if s != [] {
      var c, r := s[0], Split(s[1..], sep);
      assert Join(r, sep) == s[1..] by { JoinSplit(s[1..], sep); }
      assert s == [c] + s[1..];
      if c == sep {
        var out := [[]] + r;
        assert out[1..] == r;
        assert Join(out, sep) == [] + [sep] + Join(r, sep);
      } else {
        var out := [[c] + r[0]] + r[1..];
        if |r| == 1 {
          assert Join(out, sep) == [c] + r[0];
        } else {
          assert out[1..] == r[1..];
          assert Join(out, sep) == [c] + r[0] + [sep] + Join(r[1..], sep);
        }
      }
    }
  }

  /** A text without the separator is a single field. */
  lemma {:induction false} SplitNoSep(p: string, sep: char)
    requires sep !in p
    ensures Split(p, sep) == [p]
  {
    if p != [] {
      SplitNoSep(p[1..], sep);
      assert p == [p[0]] + p[1..];
    }
  }

  /** Splitting around one separator splits each side independently. */
  lemma {:induction false} SplitAround(x: string, y: string, sep: char)
    ensures Split(x + [sep] + y, sep) == Split(x, sep) + Split(y, sep)
  {
    var z := x + [sep] + y;
    if x == [] {
      assert z[0] == sep && z[1..] == y;
    } else {
      var c, w := x[0], x[1..];
      var a, b := Split(w, sep), Split(y, sep);
      assert z[0] == c && z[1..] == w + [sep] + y;
      SplitAround(w, y, sep);
      if c == sep {
        ConcatAssoc([[]], a, b);
      } else {
        assert (a + b)[0] == a[0] && (a + b)[1..] == a[1..] + b;
        ConcatAssoc([[c] + a[0]], a[1..], b);
      }
    }
  }

  /** The first field is the text up to the first separator, and the rest
      is the split of what follows it. */
  lemma SplitHead(p: string, q: string, sep: char)
    requires sep !in p
    ensures Split(p + [sep] + q, sep) == [p] + Split(q, sep)
  {
    SplitAround(p, q, sep);
    SplitNoSep(p, sep);
  }

  /** Splitting a joined list of separator-free parts gives the parts back. */
  lemma {:induction false} SplitJoin(parts: seq<string>, sep: char)
    requires |parts| >= 1
    requires forall i :: 0 <= i < |parts| ==> sep !in parts[i]
    ensures Split(Join(parts, sep), sep) == parts
  {
    var p := parts[0];
    SplitNoSep(p, sep);
    if |parts| > 1 {
      var rest := parts[1..];
      SplitJoin(rest, sep);
      assert Join(parts, sep) == p + [sep] + Join(rest, sep);
      SplitHead(p, Join(rest, sep), sep);
      assert parts == [p] + rest;
    } else {
      assert Join(parts, sep) == p;
    }
  }

  function LowerChar(c: char): char {
    if 'A' <= c <= 'Z' then (c as int + 32) as char else c
  }

  /** s.lower() on a byte string: ASCII letters only. */
  function Lower(s: string): string {
    seq(|s|, i requires 0 <= i < |s| => LowerChar(s[i]))
  }

  /** s.endswith(suffix) */
  predicate EndsWith(s: string, suffix: string) {
    |suffix| <= |s| && s[|s| - |suffix|..] == suffix
  }

  /** Normalises a slice bound the way Python does: a negative bound counts
      from the end, and the result is clamped into 0..n. */
  function SliceBound(i: int, n: nat): (r: nat)
    ensures r <= n
    ensures 0 <= i <= n ==> r == i
    ensures i < 0 && 0 <= n + i ==> r == n + i
    ensures n + i < 0 ==> r == 0
    ensures n < i ==> r == n
  {
    if i < 0 then (if i + n < 0 then 0 else i + n)
    else if i > n then n
    else i
  }

  /** s[start:stop] for any integers, never an error. */
  function PySlice<T>(s: seq<T>, start: int, stop: int): seq<T>
  {
    var a, b := SliceBound(start, |s|), SliceBound(stop, |s|);
    if a <= b then s[a..b] else []
  }

  /** The tail cut s[-k:] keeps the last k items, or all of s when shorter. */
  lemma LastItems<T>(s: seq<T>, k: nat)
    requires k > 0
    ensures |PySlice(s, -(k as int), |s|)| == if k <= |s| then k else |s|
    ensures PySlice(s, -(k as int), |s|) == if k <= |s| then s[|s| - k..] else s
  {
  }

  /** The head cut s[:-k] drops the last k items, or everything when shorter. */
  lemma DropLast<T>(s: seq<T>, k: nat)
    requires k > 0
    ensures PySlice(s, 0, -(k as int)) == if k <= |s| then s[..|s| - k] else []
  {
  }
}

module PyPath {
  import opened PyText

  /** Separators of Windows paths, the platform the program targets. */
  predicate IsSep(c: char) {
    c == '\\' || c == '/'
  }

  /** os.path.basename: the text after the last separator. */
  function Basename(p: string): string {
    if p == [] then []
    else if IsSep(p[|p| - 1]) then []
    else Basename(p[..|p| - 1]) + [p[|p| - 1]]
  }

  /** The basename is a separator-free suffix of the path, and it is either
      the whole path or preceded by a separator. */
  lemma {:induction false} BasenameSpec(p: string)
    ensures |Basename(p)| <= |p| && Basename(p) == p[|p| - |Basename(p)|..]
    ensures forall i :: 0 <= i < |Basename(p)| ==> !IsSep(Basename(p)[i])
    ensures |Basename(p)| < |p| ==> IsSep(p[|p| - |Basename(p)| - 1])
  {
    if p != [] && !IsSep(p[|p| - 1]) {
      var q := p[..|p| - 1];
      var c := p[|p| - 1];
      BasenameSpec(q);
      var b := Basename(q);
      var r := b + [c];
      assert Basename(p) == r;
      assert p == q + [c];
      assert r == p[|p| - |r|..] by {
        assert b == q[|q| - |b|..];
      }
      assert forall i :: 0 <= i < |r| ==> !IsSep(r[i]) by {
        assert forall i :: 0 <= i < |b| ==> r[i] == b[i];
      }
      if |r| < |p| {
        assert p[|p| - |r| - 1] == q[|q| - |b| - 1];
      }
    }
  }

  /** os.path.join(d, f) for a relative f: a backslash is inserted unless d
      is empty or already ends in a separator. */
  function PathJoin(d: string, f: string): string {
    if d == [] || IsSep(d[|d| - 1]) then d + f else d + ['\\'] + f
  }

  /** The basename of a prefix that is empty or ends in a separator,
      followed by a separator-free name, is that name. */
  lemma {:induction false} BasenameAfterSep(q: string, f: string)
    requires q == [] || IsSep(q[|q| - 1])
    requires forall i :: 0 <= i < |f| ==> !IsSep(f[i])
    ensures Basename(q + f) == f
  {
    if f != [] {
      var g := f[..|f| - 1];
      BasenameAfterSep(q, g);
      assert (q + f)[..|q + f| - 1] == q + g;
      assert f == g + [f[|f| - 1]];
    } else {
      assert q + f == q;
    }
  }

  /** Joining a directory and a plain file name and taking the basename gives
      the file name back. */
  lemma BasenameOfJoin(d: string, f: string)
    requires forall i :: 0 <= i < |f| ==> !IsSep(f[i])
    ensures Basename(PathJoin(d, f)) == f
  {
    if d == [] || IsSep(d[|d| - 1]) {
      BasenameAfterSep(d, f);
    } else {
      BasenameAfterSep(d + ['\\'], f);
      assert d + ['\\'] + f == (d + ['\\']) + f;
    }
  }
}
