/**
 * Already-clean file paths as sequences of elements, with the parts of Go's
 * `path/filepath` the program uses: `Dir`, `Join` and `Rel`.
 * `/a/b` is Path(true, ["a", "b"]), `/` is Path(true, []), `.` is Path(false, []).
 */
module Paths {
  import opened Wrappers

  datatype Path = Path(rooted: bool, segs: seq<string>)

  /** `a` is `p` or one of its ancestors. */
  predicate IsAncestorOrSelf(a: Path, p: Path) {
    a.rooted == p.rooted && a.segs <= p.segs
  }

  /** The ancestor-or-self of `p` that has `n` elements. */
  function Prefix(p: Path, n: nat): (a: Path)
    requires n <= |p.segs|
    ensures IsAncestorOrSelf(a, p) && |a.segs| == n
  {
    Path(p.rooted, p.segs[..n])
  }

  /** `filepath.Dir`: drops the last element; `/` and `.` are their own parent. */
  function Dir(p: Path): (d: Path)
    ensures IsAncestorOrSelf(d, p)
    ensures d == p <==> p.segs == []
    ensures p.segs != [] ==> |d.segs| == |p.segs| - 1
  {
    if p.segs == [] then p else Path(p.rooted, p.segs[..|p.segs| - 1])
  }

  /** `filepath.Join(p, elems...)` for elements that need no cleaning. */
  function Join(p: Path, elems: seq<string>): (j: Path)
    ensures IsAncestorOrSelf(p, j) && j.segs[|p.segs|..] == elems
  {
    Path(p.rooted, p.segs + elems)
  }

  /** Number of leading elements `a` and `b` share. */
  function CommonLen(a: seq<string>, b: seq<string>): (n: nat)
    ensures n <= |a| && n <= |b|
    ensures a[..n] == b[..n]
    ensures n < |a| && n < |b| ==> a[n] != b[n]
  {
    if a == [] || b == [] || a[0] != b[0] then 0
    else
      var m := CommonLen(a[1..], b[1..]);
      assert a[..m + 1] == [a[0]] + a[1..][..m];
      assert b[..m + 1] == [b[0]] + b[1..][..m];
      m + 1
  }

  /** `k` parent steps. */
  function Ups(k: nat): seq<string> {
    seq(k, _ => "..")
  }

  /**
   * `filepath.Rel(base, targ)`: fails when one path is rooted and the other is
   * not, or when the first element of `base` past the common part is `..`;
   * otherwise climbs out of the rest of `base` and descends into the rest of `targ`.
   */
  function Rel(base: Path, targ: Path): (r: Option<Path>)
    ensures r.Some? ==> !r.value.rooted
    ensures IsAncestorOrSelf(base, targ) ==> r == Some(Path(false, targ.segs[|base.segs|..]))
  {
    var n := CommonLen(base.segs, targ.segs);
    assert Ups(0) + targ.segs[n..] == targ.segs[n..];
    if base.rooted != targ.rooted then None
    else if n < |base.segs| && base.segs[n] == ".." then None
    else Some(Path(false, Ups(|base.segs| - n) + targ.segs[n..]))
  }

  /** Joining a base with the path of `targ` relative to it gives back `targ`. */
  lemma RelJoinRoundTrip(base: Path, targ: Path)
    requires IsAncestorOrSelf(base, targ)
    ensures Rel(base, targ).Some? && Join(base, Rel(base, targ).value.segs) == targ
  {
    assert base.segs + targ.segs[|base.segs|..] == targ.segs;
  }

  /** `Rel` fails exactly when rootedness differs or `base` must climb out of a `..`. */
  lemma RelFailsExactly(base: Path, targ: Path)
    ensures Rel(base, targ).None? <==>
      base.rooted != targ.rooted ||
      exists n :: 0 <= n < |base.segs| && base.segs[..n] <= targ.segs &&
        (n == |targ.segs| || base.segs[n] != targ.segs[n]) && base.segs[n] == ".."
  {
    var c := CommonLen(base.segs, targ.segs);
    forall n | 0 <= n < |base.segs| && base.segs[..n] <= targ.segs &&
        (n == |targ.segs| || base.segs[n] != targ.segs[n])
      ensures n == c
    {
    }
  }

  /** Elements separated by `/`. */
  function JoinSegs(segs: seq<string>): string {
    if segs == [] then ""
    else if |segs| == 1 then segs[0]
    else segs[0] + "/" + JoinSegs(segs[1..])
  }

  /** The textual form of a path, as Go prints it. */
  function Render(p: Path): string {
    if p.rooted then "/" + JoinSegs(p.segs)
    else if p.segs == [] then "."
    else JoinSegs(p.segs)
  }
}
