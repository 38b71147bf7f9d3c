# Through-focus MTF extraction, modelled in Dafny

`process_THF_file.py` reads through-focus MTF files (`.thf`) written by an
optical test bench, and builds the data behind the plots. It does this in
five steps, all modelled here:

- It pulls three labelled numeric blocks out of the text: the horizontal
  MTF block, the vertical MTF block and the defocus positions.
- It averages the horizontal and vertical blocks and keeps the rows at the
  spatial frequencies the user asked for.
- It flattens each kept row into a string record with a header naming the
  file, the slice (`horz`, `vert` or `avg`) and the frequency.
- It collects the `.thf` files of a directory walk.
- It works out the grid of subplots.

The project has eight modules in six files:

| file | module | what it holds |
|---|---|---|
| `py_text.dfy` | `Results` | `Option`, `Result` and the exceptions the code can raise (`Error`) |
| `py_text.dfy` | `PyText` | Python 2 `str.strip`, `str.split(sep)`, `sep.join`, `str.lower`, `str.endswith`, slicing with negative and out-of-range bounds |
| `py_text.dfy` | `PyPath` | `os.path.basename` and `os.path.join` with Windows separators |
| `block_scan.dfy` | `BlockScan` | the marker-driven scanner of `pull_horz_MTF`, `pull_vert_MTF` and `pull_defocus`, as a loop proved equal to a recursive state machine and to a description by line positions; the conversion `np.asarray(rows).astype(float)` |
| `freq_align.dfy` | `FreqAlign` | `pull_MTF_data`: averaging, the index list `all_idx`, and slicing all three blocks by it |
| `records.dfy` | `Records` | `flatten_and_name_array`, the defocus record and the `output_data` list of `plot_one_THF_file` |
| `file_collect.dfy` | `FileCollect` | `get_all_file_paths` over a given walk |
| `layout.dfy` | `Layout` | the `plots_down` / `plots_across` computation of `plot_all` |

A file is a sequence of lines (`seq<string>`). Reading text as a float and
writing a float as text are parameters: `parse: string -> Option<real>` and
`show: real -> string`. Numbers are exact reals.

## Model

| member | source | states |
|---|---|---|
| PyText.StripKeepsInfix | process_THF_file.py:48-54 | `strip()` keeps the infix between the leading and trailing ASCII whitespace; everything it cuts is whitespace, and what it keeps neither starts nor ends with whitespace |
| PyText.Split | process_THF_file.py:54 | `split('\t')` always returns at least one part |
| PyText.SplitHead | process_THF_file.py:54 | the first part is the text up to the first separator, and the others are the split of what follows it |
| PyText.SplitNoSep | process_THF_file.py:54 | a line without a tab is a single part |
| PyText.SplitFieldsFree | process_THF_file.py:54 | no part holds the separator |
| PyText.JoinSplit | process_THF_file.py:54 | `split('\t')` yields parts free of the separator that `'\t'.join` puts back together into the stripped line |
| PyText.SplitAround | process_THF_file.py:239 | splitting around one separator splits the two sides independently |
| PyText.SplitJoin | process_THF_file.py:239 | splitting a join of separator-free words gives the words back |
| PyText.LastItems | process_THF_file.py:239 | `s[-k:]` keeps the last k items, or all of a shorter list |
| PyText.DropLast | process_THF_file.py:225 | `s[:-k]` drops the last k items, or everything from a shorter string |
| PyPath.BasenameSpec | process_THF_file.py:225 | the basename is a separator-free suffix of the path, either the whole path or preceded by a separator |
| PyPath.BasenameOfJoin | process_THF_file.py:385 | the basename of `os.path.join(d, f)` is f, for a plain file name f |
| BlockScan.ScanShape | process_THF_file.py:46-54 | the scanner collects at most one row per line, and every row has at least one token |
| BlockScan.ScanBlock | process_THF_file.py:46-54 | the loop with its `copy` flag returns exactly the rows of the recursive state machine `Scan` |
| BlockScan.CopyingStep | process_THF_file.py:48-52 | a start-marker line switches copying on, a stop-marker line switches it off, and any other line leaves it as it was |
| BlockScan.ScanCons | process_THF_file.py:48-54 | one line contributes its tab-split tokens only when copying is on and it is neither marker, and moves the flag on |
| BlockScan.ScanPrefix | process_THF_file.py:46-54 | after any prefix, the rows collected so far are the in-block lines of that prefix, and the state carried on is whether copying is on there |
| BlockScan.ScanIsBlockLines | process_THF_file.py:46-54 | the rows are exactly the stripped, tab-split lines that follow a start marker with no stop marker in between and are not markers themselves, in line order |
| BlockScan.NoMarkerRows | process_THF_file.py:48-54 | no collected row is a start or a stop marker |
| BlockScan.StartResumes | process_THF_file.py:49-50 | a later start marker resumes copying whatever came before it, and rows keep line order |
| BlockScan.ToBlock | process_THF_file.py:60 | the conversion succeeds exactly when the rows are rectangular and every token parses; ragged rows raise first; the values are the parsed tokens; an empty list converts without error |
| BlockScan.Trim | process_THF_file.py:56-58 | `horz[1:len(horz)-1]` has length max(n-2, 0) and keeps the inner rows in order |
| BlockScan.PullHorzMTF | process_THF_file.py:44-60 | `pull_horz_MTF` is the conversion of the trimmed horizontal rows |
| BlockScan.PullVertMTF | process_THF_file.py:90-102 | `pull_vert_MTF` is the conversion of the vertical rows |
| BlockScan.PullDefocus | process_THF_file.py:173-185 | `pull_defocus` is the conversion of the rows between "Defocus Position" and the next blank line |
| BlockScan.RowsNonEmpty | process_THF_file.py:54 | every horizontal and vertical row holds at least the frequency column |
| BlockScan.DefocusHasNoBlankRow | process_THF_file.py:178-183 | a line that strips to nothing is never collected as a defocus row |
| FreqAlign.Average | process_THF_file.py:143 | the average exists exactly when the blocks have the same shape, and is then element-wise `(h + v) / 2` |
| FreqAlign.AverageKeepsCommonValues | process_THF_file.py:143-146 | where the two blocks agree, as their frequency columns do, the average keeps that value |
| FreqAlign.Matches | process_THF_file.py:149-151 | the inner loop of the comprehension yields only the current row index |
| FreqAlign.MatchesCount | process_THF_file.py:149-151 | the inner loop yields the row once per requested frequency equal to the row's |
| FreqAlign.SelectFrom | process_THF_file.py:149-151 | every index produced lies among the rows scanned |
| FreqAlign.SelectIndices | process_THF_file.py:149-151 | every index in `all_idx` is a valid row index |
| FreqAlign.SelectFromSorted | process_THF_file.py:149-151 | the index list is non-decreasing |
| FreqAlign.SelectFromCountAt | process_THF_file.py:149-151 | row i occurs in the index list exactly as often as its frequency occurs among the requested ones |
| FreqAlign.SelectFromMultiplicity | process_THF_file.py:149-151 | the same count, as the multiplicity of row i in the multiset of the index list |
| FreqAlign.SelectFromCount | process_THF_file.py:149-151 | every scanned row is counted by how often its frequency was requested |
| FreqAlign.SelectIndicesSpec | process_THF_file.py:146-151 | `all_idx` is non-decreasing and counts every row by how often its frequency was requested |
| FreqAlign.AbsentRequestIgnored | process_THF_file.py:136-151 | a requested frequency that no row has changes nothing and raises nothing |
| FreqAlign.NothingRequestedPresent | process_THF_file.py:136-151 | when no requested frequency is present, the index list is empty |
| FreqAlign.Firsts | process_THF_file.py:146 | `all_freqs` holds the first value of each averaged row |
| FreqAlign.Pick | process_THF_file.py:154 | slicing by an index list puts row `idx[k]` at position k |
| FreqAlign.MTFData | process_THF_file.py:139-154 | `pull_MTF_data` succeeds exactly when both blocks convert and have the same shape; the horizontal failure is raised before the vertical one |
| FreqAlign.AlignedRowsAgree | process_THF_file.py:143-154 | the three results have equal length, and row k of the average is the element-wise mean of row k of the other two, at a requested frequency |
| FreqAlign.PullMTFData | process_THF_file.py:139-154 | the method returns what `MTFData` specifies |
| Records.StemDropsExtension | process_THF_file.py:225 | the file name is the basename minus its last four characters |
| Records.Shown | process_THF_file.py:233-234 | one string per value |
| Records.FlattenAndName | process_THF_file.py:222-241 | the record is as long as the row; its first entry is the header, built from the basename stem, the slice name and the frequency; entry k is `str(row[k])`; the name is taken from the header |
| Records.SpacedWords | process_THF_file.py:227-229 | a text followed by space-separated words splits into its own words, then those words |
| Records.SpacedThree | process_THF_file.py:227-229 | a text followed by three space-separated words splits into its own words, then those three |
| Records.LastFourOfSix | process_THF_file.py:239 | the last four of a list ending in six words are the last four of those words |
| Records.HeaderWords | process_THF_file.py:227-229 | the header splits into the stem's words, then "%", "MTF", the slice name, "at", the frequency and "lp/mm" |
| Records.HeaderSpelledOut | process_THF_file.py:227-229 | the header is the stem followed by seven words, each after one space |
| Records.JoinFour | process_THF_file.py:239 | four words joined by a space |
| Records.HeaderLastWords | process_THF_file.py:236-239 | the last four header words are the slice name, "at", the frequency and "lp/mm" |
| Records.DisplayNameOfHeader | process_THF_file.py:236-239 | the returned name is `slicename + " at " + freq + " lp/mm"`, never the file name, when neither holds a space |
| Records.RecordRoundTrip | process_THF_file.py:231-234 | parsing a record's entries after the header gives back the row after its frequency exactly when every one of those values reads back as itself through `str` and `float` |
| Records.FlattenLength | process_THF_file.py:288-290 | a rectangular defocus block of width w flattens to `|b| * w` values |
| Records.FlattenAt | process_THF_file.py:288-290 | value j of row k lands at position `k * w + j` |
| Records.DefocusVector | process_THF_file.py:286-290 | the nested loops build the defocus record: the label, then every defocus value in row order |
| Records.DefocusRecordOfColumn | process_THF_file.py:286-290 | with one value per defocus line, entry k + 1 is `str` of the k-th position |
| Records.RowRecordsNext | process_THF_file.py:298-325 | one loop iteration appends one "avg" record, or a "horz" and then a "vert" record |
| Records.RowRecordsAt | process_THF_file.py:294-325 | one "avg" record per selected row, or a "horz" then a "vert" record per row, in row order |
| Records.AssembleOutput | process_THF_file.py:284-325 | the loop raises IndexError at the first row without a colour and otherwise returns what `OutputData` specifies |
| Records.PlotOneTHFFile | process_THF_file.py:278-355 | the method returns what `PlotOneOutput` specifies: the defocus pull first, then `pull_MTF_data`, then the output list |
| Records.PlotOneOutputShape | process_THF_file.py:278-325 | the output exists exactly when both pulls succeed and there are enough colours; it has 1 + (1 or 2) × rows entries and starts with the defocus record; errors keep their order |
| FileCollect.IsThfIff | process_THF_file.py:388 | a name passes the filter exactly when it ends in a dot and t, h, f in either case |
| FileCollect.EntryPathsMember | process_THF_file.py:385-388 | one directory contributes exactly the joins of its files that pass the filter |
| FileCollect.GetAllFilePathsMember | process_THF_file.py:384-388 | a path is returned exactly when it joins a walked directory with one of its files that passes the filter |
| FileCollect.GetAllFilePathsAppend | process_THF_file.py:384-388 | the paths follow walk order: two stretches of the walk give their paths one after the other |
| FileCollect.EntryPathsAppend | process_THF_file.py:386-388 | within a directory the files keep their order, and there are never more paths than files |
| FileCollect.NoThfInEntry | process_THF_file.py:386-388 | a directory with no `.thf` file contributes nothing |
| FileCollect.NoThfNoPaths | process_THF_file.py:384-390 | a walk with no `.thf` file returns the empty list, not an error |
| FileCollect.StemOfCollectedPath | process_THF_file.py:225 | the file name later taken from a returned path is the walked name without ".thf" |
| Layout.CeilDiv | process_THF_file.py:469 | the ceiling of an integer quotient, for either sign of the divisor |
| Layout.ChooseDown | process_THF_file.py:457-466 | an empty entry gives 2; one file gives 1; otherwise the typed count capped at the number of files, which lies in 1..n for a positive count; text `int()` rejects is an error only in that last case |
| Layout.PlotGrid | process_THF_file.py:457-469 | division by zero happens exactly when a typed 0 is kept or a positive count meets an empty directory; a positive row count makes `down * across >= n` and `down * (across - 1) < n` |
| Layout.PlotsLayout | process_THF_file.py:457-469 | the branch chain that reassigns `plots_down` returns what `PlotGrid` specifies |

## Left out

- The plotting calls are not modelled: plot, title, axis labels, spec lines, subplot, legend, figure size and window maximising. So are the wx GUI in `plot_MTF_GUI.py`, the timer and the suptitle. `plot_all` is modelled only up to `plots_across`.
- Opening files and `os.walk` are not modelled. A file is given as its sequence of lines, and a walk as its sequence of (directory, subdirectories, files) triples.
- Reading text as a float (`astype(float)`) and writing a float as text (`str`) are parameters, and numbers are exact reals. Floating-point rounding in `(h + v) / 2` and in `ceil(n / float(d))` is not modelled.
- The comma-split and sort of the frequency and spec-line strings in `plot_all` (process_THF_file.py:471-479) are not modelled. That is numpy and library parsing; the model takes the requested frequencies as a sequence of reals.
- FreqAlign.Average: numpy broadcasting is not modelled. Blocks of different shapes are an error even where numpy would broadcast, for example a one-row block against a longer one.
- BlockScan.ToBlock: zero rows convert to an empty block; the code raises nothing for them (`np.asarray([]).astype(float)`), so the model does not either.
- Records.DisplayNameOfHeader: the name is the last four header words: the slice name, "at", the frequency and "lp/mm". It does not contain the file's basename.
- Records.FlattenAndName: requires a non-empty row. Every row the scanner produces has at least the frequency column, so the IndexError of an empty row cannot occur.
- `str.strip()` and `str.lower()` are modelled on ASCII only, as Python 2 byte strings behave. Unicode whitespace and case are left out.
- PyPath.Basename, PyPath.PathJoin: Windows drive prefixes are not treated specially; only `\` and `/` separate path components. So `os.path.join('C:', 'x.thf')` is modelled as `C:\x.thf`, where Windows gives `C:x.thf`. The directory picker returns absolute paths, so a bare drive does not reach `get_all_file_paths`.
- The `int()` that reads the typed row count is a parameter (`toInt`).
- The commented-out test block at the end of `process_THF_file.py` is not modelled.
- BlockScan.Parser: NaN and infinite tokens are not modelled. In the program `float('nan')` parses and then equals no requested frequency; the model's `parse` either fails or returns an exact real.
