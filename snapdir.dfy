/**
 * `snapdir` (zfsvers.go:33-55): walk up from a path until a directory whose
 * `.zfs/snapshot` can be stat'ed is found; that directory is the root of the
 * dataset and the probed path is its snapshot directory.
 */
module SnapshotRoot {
  import opened Wrappers
  import opened Paths
  import opened FileSystem

  /** `filepath.Join(dir, ".zfs", "snapshot")`. */
  function SnapshotDir(dir: Path): (s: Path)
    ensures IsAncestorOrSelf(dir, s) && s.segs[|dir.segs|..] == [".zfs", "snapshot"]
  {
    Join(dir, [".zfs", "snapshot"])
  }

  /** The probe of one step of the walk succeeds. */
  predicate HostsSnapshots(dir: Path, stat: Stat) {
    stat(SnapshotDir(dir)).Some?
  }

  /**
   * The nearest ancestor-or-self of `dir` that hosts snapshots: the first of
   * `dir`, `Dir(dir)`, `Dir(Dir(dir))`, ... that does, or None when none does.
   */
  function NearestRoot(dir: Path, stat: Stat): (r: Option<Path>)
    ensures r.Some? ==> IsAncestorOrSelf(r.value, dir) && HostsSnapshots(r.value, stat)
    ensures r.Some? ==> forall n :: |r.value.segs| < n <= |dir.segs| ==> !HostsSnapshots(Prefix(dir, n), stat)
    ensures r.None? ==> forall n :: 0 <= n <= |dir.segs| ==> !HostsSnapshots(Prefix(dir, n), stat)
    decreases |dir.segs|
  {
    assert Prefix(dir, |dir.segs|) == dir;
    if HostsSnapshots(dir, stat) then Some(dir)
    else if Dir(dir) == dir then None
    else
      var up := Dir(dir);
      assert forall n :: 0 <= n <= |up.segs| ==> Prefix(up, n) == Prefix(dir, n);
      NearestRoot(up, stat)
  }

  /** The three properties of NearestRoot determine it: any root that has them is the one found. */
  lemma NearestRootUnique(dir: Path, stat: Stat, root: Path)
    requires IsAncestorOrSelf(root, dir) && HostsSnapshots(root, stat)
    requires forall n :: |root.segs| < n <= |dir.segs| ==> !HostsSnapshots(Prefix(dir, n), stat)
    ensures NearestRoot(dir, stat) == Some(root)
  {
    assert Prefix(dir, |root.segs|) == root;
    var r := NearestRoot(dir, stat);
    if r.Some? {
      var a := r.value;
      assert Prefix(dir, |a.segs|) == a;
      assert a.segs == dir.segs[..|a.segs|] == root.segs;
    }
  }

  /** When no step of the walk hosts snapshots there is no root. */
  lemma {:induction false} NearestRootNone(dir: Path, stat: Stat)
    requires forall n :: 0 <= n <= |dir.segs| ==> !HostsSnapshots(Prefix(dir, n), stat)
    ensures NearestRoot(dir, stat).None?
    decreases |dir.segs|
  {
    assert Prefix(dir, |dir.segs|) == dir;
    if Dir(dir) != dir {
      var up := Dir(dir);
      assert forall n :: 0 <= n <= |up.segs| ==> Prefix(up, n) == Prefix(dir, n);
      NearestRootNone(up, stat);
    }
  }

  /** A successful walk: the dataset root and its snapshot directory. */
  datatype Located = Located(fsRoot: Path, snapDir: Path)

  /** The walk itself, one `Dir` step per iteration; it ends at a path that is its own parent. */
  method SnapDir(dir: Path, stat: Stat) returns (r: Option<Located>)
    ensures r.Some? ==> r.value.snapDir == SnapshotDir(r.value.fsRoot) && stat(r.value.snapDir).Some?
    ensures r.Some? ==> IsAncestorOrSelf(r.value.fsRoot, dir)
    ensures r.Some? ==> forall n :: |r.value.fsRoot.segs| < n <= |dir.segs| ==> !HostsSnapshots(Prefix(dir, n), stat)
    ensures r.None? ==> forall n :: 0 <= n <= |dir.segs| ==> !HostsSnapshots(Prefix(dir, n), stat)
    ensures r.Some? <==> NearestRoot(dir, stat).Some?
    ensures r.Some? ==> r.value.fsRoot == NearestRoot(dir, stat).value
  {
    var d := dir;
    while true
      invariant IsAncestorOrSelf(d, dir)
      invariant forall n :: |d.segs| < n <= |dir.segs| ==> !HostsSnapshots(Prefix(dir, n), stat)
      decreases |d.segs|
    {
      assert Prefix(dir, |d.segs|) == d;
      var sDir := SnapshotDir(d);
      if stat(sDir).Some? {
        NearestRootUnique(dir, stat, d);
        return Some(Located(d, sDir));
      }
      if Dir(d) == d {
        NearestRootNone(dir, stat);
        return None;
      }
      d := Dir(d);
    }
  }
}
