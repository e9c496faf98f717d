/**
 * `main` (zfsvers.go:107-177): check the argument, resolve it to a regular
 * file, find the dataset root and its snapshot directory, map the file to a
 * path relative to the root, probe every snapshot, and either report that
 * nothing was found, summarise, or list the hits. Every failure ends the run
 * at once with an exit code.
 */
module Zfsvers {
  import opened Wrappers
  import opened Paths
  import opened FileSystem
  import opened SnapshotRoot
  import opened Search
  import opened Versions
  import opened Listing

  /** What opening the snapshot directory and `Readdirnames(-1)` give. */
  datatype SnapshotNames = OpenFailed | ReadFailed | Names(names: seq<string>)

  /** The calls into the operating system, as oracles. */
  datatype Env = Env(
    abs: string -> Option<Path>,          // filepath.Abs
    evalSymlinks: Path -> Option<Path>,   // filepath.EvalSymlinks
    stat: Stat,                           // os.Stat
    readdir: Path -> SnapshotNames)       // os.Open, then Readdirnames(-1)

  /** What the run shows: a message, the one-line summary, or the verbose list of lines. */
  datatype Shown = Message(text: string) | Summary(uniques: nat, snapshots: nat) | Lines(lines: seq<string>)

  datatype Outcome = Outcome(exitCode: int, shown: Shown)

  const NotFound := "file not found in any snapshots"

  /** One run of the program on the positional arguments `args`, with `-v` given as `verbose`. */
  method Run(env: Env, args: seq<string>, verbose: bool) returns (o: Outcome)
    ensures o.exitCode in {0, 1, 2, 3, 5, 7}
    ensures |args| != 1 ==> o == Outcome(1, Message("please supply a single filename"))
    ensures |args| == 1 ==>
      match env.abs(args[0])
      case None => o == Outcome(2, Message("cannot resolve file path"))
      case Some(absPath) =>
        match env.evalSymlinks(absPath)
        case None => o == Outcome(3, Message("Cannot find "))
        case Some(f) =>
          if env.stat(f).None? then o == Outcome(3, Message("Cannot find " + Render(f)))
          else if !env.stat(f).value.regular then o == Outcome(3, Message(Render(f) + " is not a regular file\n"))
          else
            match NearestRoot(f, env.stat)
            case None => o == Outcome(7, Message("File is not on a ZFS filesystem."))
            case Some(root) =>
              match env.readdir(SnapshotDir(root))
              case OpenFailed => o == Outcome(5, Message("Cannot read snapshot directory."))
              case ReadFailed => o == Outcome(5, Message("Cannot read snapshots."))
              case Names(snaps) =>
                var snapDir, rel := SnapshotDir(root), Rel(root, f).value;
                o.exitCode == 0 &&
                (!AnyHit(snapDir, rel, snaps, env.stat) ==> o.shown == Message(NotFound)) &&
                (AnyHit(snapDir, rel, snaps, env.stat) && !verbose ==>
                  o.shown == Summary(|HitClocks(snapDir, rel, snaps, env.stat)|, |snaps|)) &&
                (AnyHit(snapDir, rel, snaps, env.stat) && verbose ==>
                  o.shown.Lines? && Sorted(o.shown.lines) &&
                  multiset(o.shown.lines) == multiset(Matches(snapDir, rel, snaps, env.stat)))
  {
    if |args| != 1 {
      return Outcome(1, Message("please supply a single filename"));
    }
    var absPath := env.abs(args[0]);
    if absPath.None? {
      return Outcome(2, Message("cannot resolve file path"));
    }
    // The error of EvalSymlinks is ignored; with it comes the path "", which os.Stat reports as not existing.
    var resolved := env.evalSymlinks(absPath.value);
    if resolved.None? {
      return Outcome(3, Message("Cannot find "));
    }
    var fPath := resolved.value;
    var si := env.stat(fPath);
    if si.None? {
      return Outcome(3, Message("Cannot find " + Render(fPath)));
    }
    if !si.value.regular {
      return Outcome(3, Message(Render(fPath) + " is not a regular file\n"));
    }

    var located := SnapDir(fPath, env.stat);
    if located.None? {
      return Outcome(7, Message("File is not on a ZFS filesystem."));
    }
    var fsRoot, snapDir := located.value.fsRoot, located.value.snapDir;

    var relativePath := Rel(fsRoot, fPath);
    if relativePath.None? {
      return Outcome(8, Message("Could not find relative path."));
    }
    RelJoinRoundTrip(fsRoot, fPath);

    var listing := env.readdir(snapDir);
    if listing.OpenFailed? {
      return Outcome(5, Message("Cannot read snapshot directory."));
    }
    if listing.ReadFailed? {
      return Outcome(5, Message("Cannot read snapshots."));
    }
    var snaplist := listing.names;

    var shown := Report(snapDir, relativePath.value, snaplist, env.stat, verbose);
    return Outcome(0, shown);
  }

  /**
   * The part of `main` after the snapshot names are read: probe every
   * snapshot, then report that nothing was found, or the number of versions
   * out of the number of snapshots, or (verbose) the sorted lines.
   */
  method Report(snapDir: Path, rel: Path, snaplist: seq<string>, stat: Stat, verbose: bool) returns (shown: Shown)
    ensures !AnyHit(snapDir, rel, snaplist, stat) ==> shown == Message(NotFound)
    ensures AnyHit(snapDir, rel, snaplist, stat) && !verbose ==>
      shown == Summary(|HitClocks(snapDir, rel, snaplist, stat)|, |snaplist|)
    ensures AnyHit(snapDir, rel, snaplist, stat) && verbose ==>
      shown.Lines? && Sorted(shown.lines) && multiset(shown.lines) == multiset(Matches(snapDir, rel, snaplist, stat))
    ensures shown.Summary? ==> 1 <= shown.uniques <= shown.snapshots
  {
    var matches := SearchSnaps(snapDir, rel, snaplist, stat);
    MatchesEmpty(snapDir, rel, snaplist, stat);
    if |matches| == 0 {
      return Message(NotFound);
    }

    CountIsDistinctClocks(snapDir, rel, snaplist, stat);
    var uniques := CountUniqueFiles(matches);
    if !verbose {
      return Summary(uniques, |snaplist|);
    }
    var lines := DisplayList(matches);
    return Lines(lines);
  }
}
