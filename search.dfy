/**
 * `search_snaps` (zfsvers.go:57-76): for every snapshot name, stat the file at
 * the same relative path inside that snapshot and record a line for each hit.
 */
module Search {
  import opened Wrappers
  import opened Text
  import opened Paths
  import opened FileSystem

  /** `filepath.Join(snapDir, snap, rel)`: where the file would be inside snapshot `snap`. */
  function Candidate(snapDir: Path, snap: string, rel: Path): (c: Path)
    ensures IsAncestorOrSelf(snapDir, c) && |c.segs| == |snapDir.segs| + 1 + |rel.segs|
    ensures c.segs[|snapDir.segs|] == snap
    ensures c.segs[|snapDir.segs| + 1..] == rel.segs
  {
    Join(snapDir, [snap] + rel.segs)
  }

  /** The line recorded for a hit: "<date> <time> <size> <path>\n". */
  function MatchLine(f: Path, info: FileInfo): (line: string)
    ensures |line| > |Render(f)| && line[|line| - |Render(f)| - 1..] == Render(f) + "\n"
  {
    var head := DateText(info.mtime) + " " + ClockText(info.mtime) + " " + NatText(info.size) + " ";
    head + (Render(f) + "\n")
  }

  /** The date and the time of day are the first two fields of a line; whatever follows is the rest. */
  lemma {:induction false} MatchLineFields(f: Path, info: FileInfo)
    ensures Fields(MatchLine(f, info)) ==
      [DateText(info.mtime), ClockText(info.mtime)] + Fields(NatText(info.size) + " " + Render(f) + "\n")
  {
    var d, c, n, p := DateText(info.mtime), ClockText(info.mtime), NatText(info.size), Render(f);
    assert d + " " + c + " " + n + " " + (p + "\n") == d + " " + c + " " + (n + " " + p + "\n");
    TwoFields(d, c, n + " " + p + "\n");
  }

  /** One iteration of the loop: the line for `snap`, or nothing when the stat fails. */
  function ProbeSnapshot(snapDir: Path, rel: Path, snap: string, stat: Stat): (r: Option<string>)
    ensures r.Some? <==> stat(Candidate(snapDir, snap, rel)).Some?
    ensures r.Some? ==> |Fields(r.value)| >= 2 && Fields(r.value)[1] == ClockText(stat(Candidate(snapDir, snap, rel)).value.mtime)
  {
    var f := Candidate(snapDir, snap, rel);
    match stat(f)
    case None => None
    case Some(info) =>
      MatchLineFields(f, info);
      Some(MatchLine(f, info))
  }

  /** The lines of all hits, in the order of `snaps`. */
  function Matches(snapDir: Path, rel: Path, snaps: seq<string>, stat: Stat): (r: seq<string>)
    ensures |r| <= |snaps|
  {
    if snaps == [] then []
    else
      var rest := Matches(snapDir, rel, snaps[..|snaps| - 1], stat);
      match ProbeSnapshot(snapDir, rel, snaps[|snaps| - 1], stat)
      case None => rest
      case Some(line) => rest + [line]
  }

  /** Every recorded line has at least two fields, so its time-of-day field exists. */
  lemma {:induction false} MatchesHaveTimeField(snapDir: Path, rel: Path, snaps: seq<string>, stat: Stat)
    ensures forall k :: 0 <= k < |Matches(snapDir, rel, snaps, stat)| ==> |Fields(Matches(snapDir, rel, snaps, stat)[k])| >= 2
  {
    if snaps != [] {
      var init, last := snaps[..|snaps| - 1], snaps[|snaps| - 1];
      MatchesHaveTimeField(snapDir, rel, init, stat);
      var f := Candidate(snapDir, last, rel);
      if stat(f).Some? {
        MatchLineFields(f, stat(f).value);
      }
    }
  }

  /** The Go loop, appending to `matches`. */
  method SearchSnaps(snapDir: Path, rel: Path, snaplist: seq<string>, stat: Stat) returns (matches: seq<string>)
    ensures matches == Matches(snapDir, rel, snaplist, stat)
  {
    matches := [];
    for i := 0 to |snaplist|
      invariant matches == Matches(snapDir, rel, snaplist[..i], stat)
    {
      assert snaplist[..i + 1][..i] == snaplist[..i];
      var f := Candidate(snapDir, snaplist[i], rel);
      var st := stat(f);
      if st.Some? {
        matches := matches + [MatchLine(f, st.value)];
      }
    }
    assert snaplist[..|snaplist|] == snaplist;
  }

  /** Probing two runs of snapshots one after the other concatenates their lines: the order of `snaps` is kept. */
  lemma {:induction false} MatchesAppend(snapDir: Path, rel: Path, a: seq<string>, b: seq<string>, stat: Stat)
    ensures Matches(snapDir, rel, a + b, stat) == Matches(snapDir, rel, a, stat) + Matches(snapDir, rel, b, stat)
    decreases |b|
  {
    if b == [] {
      assert a + b == a;
    } else {
      var b' := b[..|b| - 1];
      assert (a + b)[..|a + b| - 1] == a + b';
      MatchesAppend(snapDir, rel, a, b', stat);
    }
  }

  /** The last snapshot contributes at most its own line, after the others'. */
  lemma MatchesUnfold(snapDir: Path, rel: Path, snaps: seq<string>, stat: Stat)
    requires snaps != []
    ensures Matches(snapDir, rel, snaps, stat) ==
      Matches(snapDir, rel, snaps[..|snaps| - 1], stat) + OptionSeq(ProbeSnapshot(snapDir, rel, snaps[|snaps| - 1], stat))
  {
  }

  function OptionSeq(o: Option<string>): seq<string> {
    if o.Some? then [o.value] else []
  }

  /** Every hit's line is recorded. */
  lemma {:induction false} MatchesComplete(snapDir: Path, rel: Path, snaps: seq<string>, stat: Stat, i: nat)
    requires i < |snaps| && ProbeSnapshot(snapDir, rel, snaps[i], stat).Some?
    ensures ProbeSnapshot(snapDir, rel, snaps[i], stat).value in Matches(snapDir, rel, snaps, stat)
  {
    var init := snaps[..|snaps| - 1];
    var line := ProbeSnapshot(snapDir, rel, snaps[i], stat).value;
    var mi := Matches(snapDir, rel, init, stat);
    var tail := OptionSeq(ProbeSnapshot(snapDir, rel, snaps[|snaps| - 1], stat));
    MatchesUnfold(snapDir, rel, snaps, stat);
    if i < |init| {
      assert init[i] == snaps[i];
      MatchesComplete(snapDir, rel, init, stat, i);
      assert line in mi;
    } else {
      assert i == |snaps| - 1;
      assert tail == [line];
    }
    assert line in mi + tail;
  }

  /** Every recorded line is the line of some hit. */
  lemma {:induction false} MatchesSound(snapDir: Path, rel: Path, snaps: seq<string>, stat: Stat, k: nat)
    requires k < |Matches(snapDir, rel, snaps, stat)|
    ensures exists i :: 0 <= i < |snaps| && ProbeSnapshot(snapDir, rel, snaps[i], stat) == Some(Matches(snapDir, rel, snaps, stat)[k])
  {
    var init := snaps[..|snaps| - 1];
    var mi := Matches(snapDir, rel, init, stat);
    if k < |mi| {
      MatchesSound(snapDir, rel, init, stat, k);
      var i :| 0 <= i < |init| && ProbeSnapshot(snapDir, rel, init[i], stat) == Some(mi[k]);
      assert snaps[i] == init[i];
    } else {
      assert ProbeSnapshot(snapDir, rel, snaps[|snaps| - 1], stat) == Some(Matches(snapDir, rel, snaps, stat)[k]);
    }
  }

  /** A line is recorded exactly when some snapshot's probe yields it. */
  lemma MatchesMember(snapDir: Path, rel: Path, snaps: seq<string>, stat: Stat, line: string)
    ensures line in Matches(snapDir, rel, snaps, stat) <==>
      exists i :: 0 <= i < |snaps| && ProbeSnapshot(snapDir, rel, snaps[i], stat) == Some(line)
  {
    var m := Matches(snapDir, rel, snaps, stat);
    if line in m {
      var k :| 0 <= k < |m| && m[k] == line;
      MatchesSound(snapDir, rel, snaps, stat, k);
    }
    if exists i :: 0 <= i < |snaps| && ProbeSnapshot(snapDir, rel, snaps[i], stat) == Some(line) {
      var i :| 0 <= i < |snaps| && ProbeSnapshot(snapDir, rel, snaps[i], stat) == Some(line);
      MatchesComplete(snapDir, rel, snaps, stat, i);
    }
  }

  /** Some snapshot holds a file at the relative path. */
  predicate AnyHit(snapDir: Path, rel: Path, snaps: seq<string>, stat: Stat) {
    exists i :: 0 <= i < |snaps| && stat(Candidate(snapDir, snaps[i], rel)).Some?
  }

  /** Nothing is recorded exactly when every probe fails. */
  lemma MatchesEmpty(snapDir: Path, rel: Path, snaps: seq<string>, stat: Stat)
    ensures Matches(snapDir, rel, snaps, stat) == [] <==>
      forall i :: 0 <= i < |snaps| ==> stat(Candidate(snapDir, snaps[i], rel)).None?
  {
    var m := Matches(snapDir, rel, snaps, stat);
    if m != [] {
      MatchesMember(snapDir, rel, snaps, stat, m[0]);
    }
    forall i | 0 <= i < |snaps| && stat(Candidate(snapDir, snaps[i], rel)).Some?
      ensures m != []
    {
      MatchesMember(snapDir, rel, snaps, stat, ProbeSnapshot(snapDir, rel, snaps[i], stat).value);
    }
  }
}
