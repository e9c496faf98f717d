# zfsvers in Dafny

A model of `zfsvers`, a small Go program that looks for older copies of one
regular file in the snapshots of the ZFS dataset holding it. It walks up from
the file to the directory that has a `.zfs/snapshot` directory (the dataset
root), takes the file's path relative to that root, stats the same relative
path inside every snapshot, and then reports either that nothing was found,
the number of distinct versions out of the number of snapshots, or (with
`-v`) every hit as a sorted list of lines.

The filesystem and the operating system are oracles: `filepath.Abs`,
`filepath.EvalSymlinks`, `os.Stat` and the reading of the snapshot directory
are fields of an `Env` value handed to `Zfsvers.Run`. Paths are already-clean
sequences of elements (`Paths.Path`), so `filepath.Dir`, `Join` and `Rel`
become sequence arithmetic. Modification times are local-time fields, written
out with the layout `2006-01-02 15:04:05`.

Modules, one per stage of the program:

- `Paths` (`paths.dfy`): paths, `Dir`, `Join`, `Rel`, and how a path is printed.
- `Text` (`text.dfy`): `strings.Fields` and decimal numbers.
- `FileSystem` (`filesystem.dfy`): the `os.Stat` oracle and the timestamp layout.
- `SnapshotRoot` (`snapdir.dfy`): `snapdir`, the upward walk.
- `Search` (`search.dfy`): `search_snaps`, the probe of every snapshot.
- `Versions` (`versions.dfy`): `count_unique_files`.
- `Listing` (`listing.dfy`): the in-place sort of `display_list`.
- `Zfsvers` (`zfsvers.dfy`): the decisions and exit codes of `main`.
- `Wrappers` (`wrappers.dfy`): `Option`.

Behaviour of the code that the model keeps:

- The upward walk starts at the file path itself, not at its directory
  (zfsvers.go:135). The first probe is therefore `<file>/.zfs/snapshot`.
- When `filepath.EvalSymlinks` fails, it returns `""` along with the error.
  The code ignores the error (zfsvers.go:124), so `os.Stat("")` reports that
  the file does not exist. The run then ends with exit code 3 and the message
  `Cannot find `. The absolute path is not used.
- The code keys each version on the second whitespace-separated field of each line
  (zfsvers.go:87), which is the time of day alone, although the comment at
  zfsvers.go:80-82 speaks of "timestamp and path". The model counts distinct
  times of day, so hits on different dates at the same clock time count once.
  `Versions.CountIsDistinctClocks` and `Versions.SameClockCountsOnce` state this.
- A missing file and a file that is not regular share exit code 3.
- A failure to compute the relative path exits with code 8. `Paths.Rel`
  models when `filepath.Rel` fails: one path is rooted and the other is not,
  or the first unmatched element of the base is `..`. The walk only returns
  an ancestor of the file, so that failure cannot happen. `Zfsvers.Run`
  keeps the branch, and its contract proves that the exit code is never 8.
- Snapshots are probed in the order the directory listing returns them.

## Model

| member | source | states |
|---|---|---|
| `SnapshotRoot.SnapDir` | zfsvers.go:33-55 | On success it returns a directory `d` on the chain from the argument upward, with the argument itself included, paired with exactly `Join(d, ".zfs", "snapshot")`. That probe succeeded, and the probe failed for every closer directory on the chain. It fails only when every directory on the chain, up to one that is its own parent, failed the probe. The result agrees with `NearestRoot`, and the loop ends because each step removes one path element |
| `SnapshotRoot.NearestRoot` | zfsvers.go:41-53 | The nearest ancestor-or-self whose snapshot directory stats. It is an ancestor of the argument, its probe succeeds, and every closer directory fails. `None` means every directory up to the root fails |
| `SnapshotRoot.NearestRootUnique` | zfsvers.go:41-53 | Any ancestor that passes the probe while every closer directory fails is the one `NearestRoot` returns, so the walk's answer is unique |
| `SnapshotRoot.NearestRootNone` | zfsvers.go:49-50 | When every directory on the chain fails the probe, the walk fails |
| `Paths.Dir` | zfsvers.go:49-53 | The parent is an ancestor-or-self one element shorter. A path is its own parent only at `/` or `.` |
| `Paths.Join` | zfsvers.go:41 | `filepath.Join` of clean elements: the base is an ancestor-or-self of the result, and the elements after it are exactly the ones joined |
| `Paths.Rel` | zfsvers.go:141 | Any result is a relative path. For an ancestor-or-self base, the result is the elements of the target beyond the base |
| `Paths.RelJoinRoundTrip` | zfsvers.go:141-145 | Joining the dataset root with the relative path of a file beneath it gives the file path back |
| `Paths.RelFailsExactly` | zfsvers.go:141-145 | `Rel` fails if and only if exactly one of the two paths is rooted, or the first base element that differs from the target is `..` |
| `Text.Fields` | zfsvers.go:87 | Every field `strings.Fields` returns is non-empty and has no separator character in it |
| `Text.FieldsAfterWord` | zfsvers.go:87 | A word followed by a blank becomes the first field, and the rest of the line is split as before |
| `Text.TwoFields` | zfsvers.go:87 | Two blank-terminated words are the first two fields of a line |
| `Text.NatText` | zfsvers.go:70 | A size is printed as a non-empty run of decimal digits |
| `Text.NatTextRoundTrip` | zfsvers.go:70 | Reading back the printed decimal digits gives the size |
| `FileSystem.DateText` | zfsvers.go:71 | The date part of the timestamp layout is a single field |
| `FileSystem.ClockText` | zfsvers.go:71 | The time-of-day part of the timestamp layout is a single field |
| `Search.MatchLineFields` | zfsvers.go:70-71 | The first two fields of a recorded line are the date and the time of day. Size and path follow them |
| `SnapshotRoot.SnapshotDir` | zfsvers.go:41 | The probed directory lies beneath `dir`, two elements deeper: `.zfs` then `snapshot` |
| `Search.Candidate` | zfsvers.go:66 | The probed path lies beneath the snapshot directory: the snapshot name comes next, followed by exactly the elements of the relative path |
| `Search.MatchLine` | zfsvers.go:70-71 | The `Sprintf` line `"<date> <time> <size> <path>\n"` ends with the probed path and a newline |
| `Search.ProbeSnapshot` | zfsvers.go:66-72 | One iteration: it yields a line if and only if the stat of the candidate path succeeds, and that line's second field is the file's time of day |
| `Search.Matches` | zfsvers.go:63-75 | At most one line per snapshot is recorded |
| `Search.SearchSnaps` | zfsvers.go:57-76 | The loop returns exactly the lines of `Matches`, built by appending one hit at a time |
| `Search.MatchesAppend` | zfsvers.go:65-73 | Probing two runs of snapshot names yields the first run's lines followed by the second's, so lines keep the order of the snapshot list |
| `Search.MatchesComplete` | zfsvers.go:66-72 | When the stat of `Join(snapDir, snap, rel)` succeeds, the line for that snapshot is recorded |
| `Search.MatchesSound` | zfsvers.go:66-72 | Every recorded line is the formatted line of one snapshot whose probe succeeded |
| `Search.MatchesMember` | zfsvers.go:63-75 | A line is recorded if and only if some snapshot's probe yields it. Failed probes are dropped silently |
| `Search.MatchesEmpty` | zfsvers.go:63-75 | No line is recorded if and only if every probe fails |
| `Search.MatchesHaveTimeField` | zfsvers.go:70-71 | Every recorded line has a second field, so the slice at zfsvers.go:87 cannot fail on them |
| `Versions.TimeKey` | zfsvers.go:87 | The key `strings.Join(strings.Fields(raw)[1:2], "")` of a line with two fields is a single non-empty field without separators |
| `Versions.TimeKeys` | zfsvers.go:84-94 | The set of keys has at most one element per line. It has at least one element when there is any line |
| `Versions.CountUniqueFiles` | zfsvers.go:78-95 | The size of the `found` map is the number of distinct second fields among the lines |
| `Versions.TimeKeysMember` | zfsvers.go:86-91 | A key is in the set if and only if some line has it as its second field |
| `Versions.TimeKeysPermutation` | zfsvers.go:84-94 | Any rearrangement of the lines gives the same count |
| `Versions.TimeKeysInjective` | zfsvers.go:84-94 | Lines with pairwise different keys are all counted |
| `Versions.LineKeyIsClock` | zfsvers.go:87 | A recorded line's key is its time of day. The date, the size and the path do not affect it |
| `Versions.KeyOfMatchIsHitClock` | zfsvers.go:86-91 | The key of every recorded line is the time of day of some hit |
| `Versions.HitClockIsKeyOfMatch` | zfsvers.go:86-91 | The time of day of every hit is the key of a recorded line |
| `Versions.CountIsDistinctClocks` | zfsvers.go:78-95 | The count of the probe's lines equals the number of distinct times of day among the hits |
| `Versions.SameClockCountsOnce` | zfsvers.go:84-94 | Hits that all share one time of day count as one version, whatever their dates |
| `Listing.LexLe` | zfsvers.go:101 | Go's `<=` on strings, the order `sort.Strings` uses: a string sorts at or before every string it is a prefix of |
| `Listing.LexLeTotal` | zfsvers.go:101 | Of any two strings, one sorts at or before the other |
| `Listing.LexLeTransitive` | zfsvers.go:101 | The string order is transitive |
| `Listing.LexLeAntisymmetric` | zfsvers.go:101 | Strings that each sort at or before the other are equal |
| `Listing.DisplayList` | zfsvers.go:97-101 | The lines `display_list` writes out are in ascending string order and are a permutation of the recorded lines |
| `Listing.SortLines` | zfsvers.go:101 | `sort.Strings` leaves the array in ascending string order, as a permutation of its input |
| `Listing.InsertLast` | zfsvers.go:101 | One insertion step makes `a[..i + 1]` sorted and a permutation of what it held, and leaves `a[i + 1..]` as it was |
| `Listing.SortedUnique` | zfsvers.go:101 | Two sorted arrangements of the same lines are equal, so the verbose list depends only on the set of hits |
| `Zfsvers.Report` | zfsvers.go:162-176 | With no hit, it reports "file not found in any snapshots". Otherwise it reports either the summary or the verbose list. The summary holds the number of distinct times of day among hits and the total number of snapshots, and 1 <= versions <= snapshots. The verbose list is a sorted permutation of the probe's lines |
| `Zfsvers.Run` | zfsvers.go:107-177 | Stops at the first failure. Wrong argument count exits 1. A failing `filepath.Abs` exits 2. A missing or non-regular file exits 3, and a failing `EvalSymlinks` counts as missing. No snapshot root on the chain from the file exits 7. An unreadable snapshot directory, or unreadable names, exits 5. Exit code 8 never occurs. Otherwise it exits 0 and shows what `Report` states, computed from the nearest root and the file's path relative to it |

## Left out

- Printing and process exit: the messages are returned in the `Outcome` and `os.Exit` becomes the exit code in it; `fmt.Printf(match)` at zfsvers.go:103, which treats each line as a format string, is not modelled.
- Flag parsing: the positional arguments and the `-v` flag are parameters of `Run`.
- The panic at zfsvers.go:128, reached when `os.Stat` fails with an error other than "does not exist": the stat oracle fails only as "does not exist", so the dereference of the missing file information never arises.
- Path cleaning: paths are already clean element sequences; `filepath.Join` collapsing `..`, repeated separators and volume names are not modelled.
- Time formatting: the oracle gives local-time fields directly, so time zones are not modelled; negative years (printed with a minus sign) cannot be represented, since the year is a natural number.
- Bytes: strings are sequences of Unicode scalar values rather than bytes; their order agrees with Go's byte-wise order for valid UTF-8, and invalid UTF-8 is not modelled.
- A changing filesystem: each oracle answers the same way for the whole run, so a file that changes during the run is not modelled.
- The order of `Readdirnames`: the listing oracle fixes an order, and the model keeps it.
