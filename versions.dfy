/**
 * `count_unique_files` (zfsvers.go:78-95): the number of distinct keys among
 * the recorded lines, where the key of a line is its second whitespace-separated
 * field. For the lines `search_snaps` writes that field is the time of day
 * alone, so hits that differ only in date, size or path count once.
 */
module Versions {
  import opened Wrappers
  import opened Text
  import opened Paths
  import opened FileSystem
  import opened Search

  /** Every line has a second field; the slice `[1:2]` panics on a line without one. */
  predicate AllHaveTimeField(matches: seq<string>) {
    forall k :: 0 <= k < |matches| ==> |Fields(matches[k])| >= 2
  }

  /** `strings.Join(strings.Fields(raw)[1:2], "")`: the second field of the line. */
  function TimeKey(raw: string): (key: string)
    requires |Fields(raw)| >= 2
    ensures IsWord(key)
  {
    Fields(raw)[1]
  }

  /** The set of keys of the lines. */
  function TimeKeys(matches: seq<string>): (keys: set<string>)
    requires AllHaveTimeField(matches)
    ensures |keys| <= |matches|
    ensures matches != [] ==> |keys| >= 1
  {
    if matches == [] then {}
    else TimeKeys(matches[..|matches| - 1]) + {TimeKey(matches[|matches| - 1])}
  }

  /** The Go loop, filling the `found` map and returning its size. */
  method CountUniqueFiles(matches: seq<string>) returns (n: nat)
    requires AllHaveTimeField(matches)
    ensures n == |TimeKeys(matches)|
  {
    var found: map<string, bool> := map[];
    for i := 0 to |matches|
      invariant found.Keys == TimeKeys(matches[..i])
    {
      assert matches[..i + 1][..i] == matches[..i];
      var desc := TimeKey(matches[i]);
      if desc !in found || !found[desc] {
        found := found[desc := true];
      }
    }
    assert matches[..|matches|] == matches;
    n := |found|;
  }

  /** A key is counted exactly when some line has it. */
  lemma {:induction false} TimeKeysMember(matches: seq<string>, key: string)
    requires AllHaveTimeField(matches)
    ensures key in TimeKeys(matches) <==> exists k :: 0 <= k < |matches| && TimeKey(matches[k]) == key
  {
    if matches != [] {
      var init := matches[..|matches| - 1];
      TimeKeysMember(init, key);
      if key in TimeKeys(init) {
        var k :| 0 <= k < |init| && TimeKey(init[k]) == key;
        assert matches[k] == init[k];
      }
      if exists k :: 0 <= k < |matches| && TimeKey(matches[k]) == key {
        var k :| 0 <= k < |matches| && TimeKey(matches[k]) == key;
        if k < |init| {
          assert init[k] == matches[k];
        }
      }
    }
  }

  /** The count does not depend on the order of the lines. */
  lemma TimeKeysPermutation(a: seq<string>, b: seq<string>)
    requires AllHaveTimeField(a) && AllHaveTimeField(b)
    requires multiset(a) == multiset(b)
    ensures TimeKeys(a) == TimeKeys(b)
  {
    forall key | key in TimeKeys(a) ensures key in TimeKeys(b) {
      TimeKeysMember(a, key);
      var k :| 0 <= k < |a| && TimeKey(a[k]) == key;
      assert a[k] in multiset(b);
      var j :| 0 <= j < |b| && b[j] == a[k];
      TimeKeysMember(b, key);
    }
    forall key | key in TimeKeys(b) ensures key in TimeKeys(a) {
      TimeKeysMember(b, key);
      var k :| 0 <= k < |b| && TimeKey(b[k]) == key;
      assert b[k] in multiset(a);
      var j :| 0 <= j < |a| && a[j] == b[k];
      TimeKeysMember(a, key);
    }
  }

  /** Lines with pairwise different keys are all counted. */
  lemma {:induction false} TimeKeysInjective(matches: seq<string>)
    requires AllHaveTimeField(matches)
    requires forall i, j :: 0 <= i < j < |matches| ==> TimeKey(matches[i]) != TimeKey(matches[j])
    ensures |TimeKeys(matches)| == |matches|
  {
    if matches != [] {
      var init := matches[..|matches| - 1];
      var last := matches[|matches| - 1];
      TimeKeysInjective(init);
      TimeKeysMember(init, TimeKey(last));
    }
  }

  /** The key of a recorded line is its time of day: the date, the size and the path play no part. */
  lemma LineKeyIsClock(f: Path, info: FileInfo)
    ensures |Fields(MatchLine(f, info))| >= 2
    ensures TimeKey(MatchLine(f, info)) == ClockText(info.mtime)
  {
    MatchLineFields(f, info);
  }

  /** The distinct times of day of the hits. */
  function HitClocks(snapDir: Path, rel: Path, snaps: seq<string>, stat: Stat): set<string> {
    set i | 0 <= i < |snaps| && stat(Candidate(snapDir, snaps[i], rel)).Some? ::
      ClockText(stat(Candidate(snapDir, snaps[i], rel)).value.mtime)
  }

  /** The key of every recorded line is the time of day of a hit. */
  lemma KeyOfMatchIsHitClock(snapDir: Path, rel: Path, snaps: seq<string>, stat: Stat, k: nat)
    requires k < |Matches(snapDir, rel, snaps, stat)|
    requires AllHaveTimeField(Matches(snapDir, rel, snaps, stat))
    ensures TimeKey(Matches(snapDir, rel, snaps, stat)[k]) in HitClocks(snapDir, rel, snaps, stat)
  {
    var m := Matches(snapDir, rel, snaps, stat);
    MatchesSound(snapDir, rel, snaps, stat, k);
    var i :| 0 <= i < |snaps| && ProbeSnapshot(snapDir, rel, snaps[i], stat) == Some(m[k]);
    var f := Candidate(snapDir, snaps[i], rel);
    LineKeyIsClock(f, stat(f).value);
  }

  /** The time of day of every hit is the key of a recorded line. */
  lemma HitClockIsKeyOfMatch(snapDir: Path, rel: Path, snaps: seq<string>, stat: Stat, i: nat)
    requires i < |snaps| && stat(Candidate(snapDir, snaps[i], rel)).Some?
    requires AllHaveTimeField(Matches(snapDir, rel, snaps, stat))
    ensures ClockText(stat(Candidate(snapDir, snaps[i], rel)).value.mtime) in TimeKeys(Matches(snapDir, rel, snaps, stat))
  {
    var m := Matches(snapDir, rel, snaps, stat);
    var f := Candidate(snapDir, snaps[i], rel);
    MatchesComplete(snapDir, rel, snaps, stat, i);
    var k :| 0 <= k < |m| && m[k] == MatchLine(f, stat(f).value);
    LineKeyIsClock(f, stat(f).value);
    TimeKeysMember(m, ClockText(stat(f).value.mtime));
  }

  /** Counting the probe's lines counts the distinct times of day among the hits. */
  lemma CountIsDistinctClocks(snapDir: Path, rel: Path, snaps: seq<string>, stat: Stat)
    ensures AllHaveTimeField(Matches(snapDir, rel, snaps, stat))
    ensures TimeKeys(Matches(snapDir, rel, snaps, stat)) == HitClocks(snapDir, rel, snaps, stat)
  {
    var m := Matches(snapDir, rel, snaps, stat);
    MatchesHaveTimeField(snapDir, rel, snaps, stat);
    forall key | key in TimeKeys(m) ensures key in HitClocks(snapDir, rel, snaps, stat) {
      TimeKeysMember(m, key);
      var k :| 0 <= k < |m| && TimeKey(m[k]) == key;
      KeyOfMatchIsHitClock(snapDir, rel, snaps, stat, k);
    }
    forall i | 0 <= i < |snaps| && stat(Candidate(snapDir, snaps[i], rel)).Some?
      ensures ClockText(stat(Candidate(snapDir, snaps[i], rel)).value.mtime) in TimeKeys(m)
    {
      HitClockIsKeyOfMatch(snapDir, rel, snaps, stat, i);
    }
  }

  /** Hits that all share one time of day are one version, whatever their dates. */
  lemma SameClockCountsOnce(snapDir: Path, rel: Path, snaps: seq<string>, stat: Stat, clock: string)
    requires exists i :: 0 <= i < |snaps| && stat(Candidate(snapDir, snaps[i], rel)).Some?
    requires forall i :: 0 <= i < |snaps| && stat(Candidate(snapDir, snaps[i], rel)).Some? ==>
      ClockText(stat(Candidate(snapDir, snaps[i], rel)).value.mtime) == clock
    ensures AllHaveTimeField(Matches(snapDir, rel, snaps, stat))
    ensures |TimeKeys(Matches(snapDir, rel, snaps, stat))| == 1
  {
    CountIsDistinctClocks(snapDir, rel, snaps, stat);
    assert HitClocks(snapDir, rel, snaps, stat) == {clock};
  }
}
