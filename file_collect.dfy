// get_all_file_paths of process_THF_file.py: the .thf files found by a
// directory walk, joined to their directories, in walk order.

module FileCollect {
  import opened PyText
  import opened PyPath
  import opened Records

  /** One triple (dir_name, sub_dir_list, file_list) produced by os.walk. */
  datatype WalkEntry = WalkEntry(dir: string, subdirs: seq<string>, files: seq<string>)

  /** file_name.lower().endswith('.thf') */
  predicate IsThf(name: string) {
    EndsWith(Lower(name), ".thf")
  }

  /** A name passes the filter exactly when its last four characters are a
      dot and the letters t, h, f in either case. */
  lemma IsThfIff(name: string)
    ensures IsThf(name) <==>
              |name| >= 4 &&
              name[|name| - 4] == '.' &&
              (name[|name| - 3] == 't' || name[|name| - 3] == 'T') &&
              (name[|name| - 2] == 'h' || name[|name| - 2] == 'H') &&
              (name[|name| - 1] == 'f' || name[|name| - 1] == 'F')
  {
    var low := Lower(name);
    if |name| >= 4 {
      var n := |name|;
      assert low[n - 4..] == [low[n - 4], low[n - 3], low[n - 2], low[n - 1]];
      assert ".thf" == ['.', 't', 'h', 'f'];
    }
  }

  /** The paths contributed by one walked directory. */
  function EntryPaths(dir: string, files: seq<string>): seq<string> {
    if files == [] then []
    else (if IsThf(files[0]) then [PathJoin(dir, files[0])] else []) + EntryPaths(dir, files[1..])
  }

  /** all_paths: for each walked directory in turn, its .thf files in the
      order the walk lists them. */
  function GetAllFilePaths(walk: seq<WalkEntry>): seq<string> {
    if walk == [] then []
    else EntryPaths(walk[0].dir, walk[0].files) + GetAllFilePaths(walk[1..])
  }

  /** A path is returned by one directory exactly when it joins that
      directory with one of its files that passes the filter. */
  lemma {:induction false} EntryPathsMember(dir: string, files: seq<string>, p: string)
    ensures p in EntryPaths(dir, files) <==>
              exists j :: 0 <= j < |files| && IsThf(files[j]) && p == PathJoin(dir, files[j])
  {
    if files != [] {
      EntryPathsMember(dir, files[1..], p);
      if p in EntryPaths(dir, files[1..]) {
        var j :| 0 <= j < |files[1..]| && IsThf(files[1..][j]) && p == PathJoin(dir, files[1..][j]);
        assert files[j + 1] == files[1..][j];
      }
      if exists j :: 0 <= j < |files| && IsThf(files[j]) && p == PathJoin(dir, files[j]) {
        var j :| 0 <= j < |files| && IsThf(files[j]) && p == PathJoin(dir, files[j]);
        if j > 0 {
          assert files[1..][j - 1] == files[j];
        }
      }
    }
  }

  /** A path is returned exactly when it joins a walked directory with one
      of that directory's files whose lower-cased name ends in ".thf". */
  lemma {:induction false} GetAllFilePathsMember(walk: seq<WalkEntry>, p: string)
    ensures p in GetAllFilePaths(walk) <==>
              exists i, j :: 0 <= i < |walk| && 0 <= j < |walk[i].files| &&
                IsThf(walk[i].files[j]) && p == PathJoin(walk[i].dir, walk[i].files[j])
  {
    if walk != [] {
      var e := walk[0];
      EntryPathsMember(e.dir, e.files, p);
      GetAllFilePathsMember(walk[1..], p);
      if p in GetAllFilePaths(walk[1..]) {
        var i, j :| 0 <= i < |walk[1..]| && 0 <= j < |walk[1..][i].files| &&
          IsThf(walk[1..][i].files[j]) && p == PathJoin(walk[1..][i].dir, walk[1..][i].files[j]);
        assert walk[i + 1] == walk[1..][i];
      }
      if p in EntryPaths(e.dir, e.files) {
        var j :| 0 <= j < |e.files| && IsThf(e.files[j]) && p == PathJoin(e.dir, e.files[j]);
        assert walk[0] == e;
      }
      if exists i, j :: 0 <= i < |walk| && 0 <= j < |walk[i].files| &&
           IsThf(walk[i].files[j]) && p == PathJoin(walk[i].dir, walk[i].files[j]) {
        var i, j :| 0 <= i < |walk| && 0 <= j < |walk[i].files| &&
          IsThf(walk[i].files[j]) && p == PathJoin(walk[i].dir, walk[i].files[j]);
        if i > 0 {
          assert walk[1..][i - 1] == walk[i];
        }
      }
    }
  }

  /** Walking two stretches of directories one after the other returns the
      paths of the first stretch, then those of the second. */
  lemma {:induction false} GetAllFilePathsAppend(a: seq<WalkEntry>, b: seq<WalkEntry>)
    ensures GetAllFilePaths(a + b) == GetAllFilePaths(a) + GetAllFilePaths(b)
  {
    if a != [] {
      GetAllFilePathsAppend(a[1..], b);
      assert (a + b)[1..] == a[1..] + b;
      assert (a + b)[0] == a[0];
      var e := EntryPaths(a[0].dir, a[0].files);
      assert GetAllFilePaths(a + b) == e + GetAllFilePaths(a[1..] + b);
      assert GetAllFilePaths(a) == e + GetAllFilePaths(a[1..]);
      ConcatAssoc(e, GetAllFilePaths(a[1..]), GetAllFilePaths(b));
    } else {
      assert a + b == b;
    }
  }

  /** Within one directory the files keep their order, and the filter
      never adds a path. */
  lemma {:induction false} EntryPathsAppend(dir: string, f: seq<string>, g: seq<string>)
    ensures EntryPaths(dir, f + g) == EntryPaths(dir, f) + EntryPaths(dir, g)
    ensures |EntryPaths(dir, f)| <= |f|
  {
    if f != [] {
      EntryPathsAppend(dir, f[1..], g);
      assert (f + g)[1..] == f[1..] + g;
      assert (f + g)[0] == f[0];
      var head := if IsThf(f[0]) then [PathJoin(dir, f[0])] else [];
      assert EntryPaths(dir, f + g) == head + EntryPaths(dir, f[1..] + g);
      assert EntryPaths(dir, f) == head + EntryPaths(dir, f[1..]);
      ConcatAssoc(head, EntryPaths(dir, f[1..]), EntryPaths(dir, g));
    } else {
      assert f + g == g;
    }
  }

  /** A directory with no .thf file contributes nothing. */
  lemma {:induction false} NoThfInEntry(dir: string, files: seq<string>)
    requires forall j :: 0 <= j < |files| ==> !IsThf(files[j])
    ensures EntryPaths(dir, files) == []
  {
    if files != [] {
      assert !IsThf(files[0]);
      NoThfInEntry(dir, files[1..]);
    }
  }

  /** A walk with no .thf file returns the empty list rather than failing. */
  lemma {:induction false} NoThfNoPaths(walk: seq<WalkEntry>)
    requires forall i, j :: 0 <= i < |walk| && 0 <= j < |walk[i].files| ==> !IsThf(walk[i].files[j])
    ensures GetAllFilePaths(walk) == []
  {
    if walk != [] {
      NoThfInEntry(walk[0].dir, walk[0].files);
      assert forall i :: 0 <= i < |walk[1..]| ==> walk[1..][i] == walk[i + 1];
      NoThfNoPaths(walk[1..]);
    }
  }

  /** The file name that flatten_and_name_array later derives from a
      returned path is the walked file name without its ".thf". */
  lemma StemOfCollectedPath(dir: string, name: string)
    requires IsThf(name)
    requires forall i :: 0 <= i < |name| ==> !IsSep(name[i])
    ensures Stem(PathJoin(dir, name)) == name[..|name| - 4]
  {
    IsThfIff(name);
    BasenameOfJoin(dir, name);
    DropLast(name, 4);
  }
}
