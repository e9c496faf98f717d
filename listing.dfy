/**
 * `display_list` (zfsvers.go:97-105): the recorded lines are sorted in place
 * in ascending order (`sort.Strings`) before being written out.
 */
module Listing {

  /**
   * Go's `<=` on strings: byte-wise lexicographic order. Characters here are
   * Unicode scalar values, whose order agrees with the order of their UTF-8 bytes.
   * A prefix sorts at or before the longer string.
   */
  predicate LexLe(a: string, b: string)
    ensures a <= b ==> LexLe(a, b)
  {
    if a == [] then true
    else if b == [] then false
    else if a[0] != b[0] then a[0] < b[0]
    else LexLe(a[1..], b[1..])
  }

  lemma {:induction false} LexLeTotal(a: string, b: string)
    ensures LexLe(a, b) || LexLe(b, a)
  {
    if a != [] && b != [] && a[0] == b[0] {
      LexLeTotal(a[1..], b[1..]);
    }
  }

  lemma {:induction false} LexLeTransitive(a: string, b: string, c: string)
    requires LexLe(a, b) && LexLe(b, c)
    ensures LexLe(a, c)
  {
    if a != [] && b != [] && c != [] && a[0] == b[0] && b[0] == c[0] {
      LexLeTransitive(a[1..], b[1..], c[1..]);
    }
  }

  lemma {:induction false} LexLeAntisymmetric(a: string, b: string)
    requires LexLe(a, b) && LexLe(b, a)
    ensures a == b
  {
    if a != [] && b != [] {
      LexLeAntisymmetric(a[1..], b[1..]);
      assert a == [a[0]] + a[1..];
      assert b == [b[0]] + b[1..];
    }
  }

  /** Ascending in Go's string order. */
  predicate Sorted(s: seq<string>) {
    forall i, j :: 0 <= i < j < |s| ==> LexLe(s[i], s[j])
  }

  /**
   * `sort.Strings`, modelled as an insertion sort. Any correct sort gives the
   * same result: by `SortedUnique` a sorted permutation of the lines is unique.
   */
  method SortLines(a: array<string>)
    modifies a
    ensures Sorted(a[..])
    ensures multiset(a[..]) == old(multiset(a[..]))
  {
    var i := 0;
    while i < a.Length
      invariant 0 <= i <= a.Length
      invariant Sorted(a[..i])
      invariant multiset(a[..]) == old(multiset(a[..]))
    {
      InsertLast(a, i);
      i := i + 1;
    }
    assert a[..a.Length] == a[..];
  }

  /** `display_list` without the printing: the lines in the order they are written out. */
  method DisplayList(matches: seq<string>) returns (lines: seq<string>)
    ensures Sorted(lines) && multiset(lines) == multiset(matches)
  {
    var a := new string[|matches|](k requires 0 <= k < |matches| => matches[k]);
    assert a[..] == matches;
    SortLines(a);
    lines := a[..];
  }

  /** Moves `a[i]` left by adjacent swaps until `a[..i + 1]` is sorted; the rest of the array stays as it was. */
  method InsertLast(a: array<string>, i: nat)
    requires i < a.Length && Sorted(a[..i])
    modifies a
    ensures Sorted(a[..i + 1])
    ensures multiset(a[..i + 1]) == old(multiset(a[..i + 1]))
    ensures a[i + 1..] == old(a[i + 1..])
    ensures multiset(a[..]) == old(multiset(a[..]))
  {
    ghost var before := a[..];
    assert a[..][..i] == a[..i];
    var j := i;
    while j > 0 && !LexLe(a[j - 1], a[j])
      invariant 0 <= j <= i
      invariant multiset(a[..]) == old(multiset(a[..]))
      invariant forall q :: i < q < a.Length ==> a[q] == old(a[q])
      invariant Inserting(a[..], i, j)
    {
      ghost var s := a[..];
      Swap(a, j - 1, j);
      SwapStep(s, a[..], i, j);
      j := j - 1;
    }
    InsertDone(a[..], i, j);
    assert a[..][..i + 1] == a[..i + 1];
    assert a[i + 1..] == before[i + 1..];
    PrefixPermutation(a[..], before, i + 1);
  }

  /** Mid-insertion: `s[..i + 1]` is sorted apart from `s[j]`, which sorts at or before everything after it. */
  predicate Inserting(s: seq<string>, i: nat, j: nat)
    requires j <= i < |s|
  {
    (forall p, q :: 0 <= p < q <= i && p != j && q != j ==> LexLe(s[p], s[q])) &&
    (forall q :: j < q <= i ==> LexLe(s[j], s[q]))
  }

  /** Swapping an out-of-order `s[j]` with its left neighbour moves the insertion point one step left. */
  lemma SwapStep(s: seq<string>, t: seq<string>, i: nat, j: nat)
    requires 0 < j <= i < |s| == |t| && Inserting(s, i, j) && !LexLe(s[j - 1], s[j])
    requires t[j - 1] == s[j] && t[j] == s[j - 1]
    requires forall m :: 0 <= m < |s| && m != j - 1 && m != j ==> t[m] == s[m]
    ensures Inserting(t, i, j - 1)
  {
    LexLeTotal(s[j - 1], s[j]);
  }

  /** Once `s[j]` sorts after its left neighbour, or has none, the insertion is complete. */
  lemma InsertDone(s: seq<string>, i: nat, j: nat)
    requires j <= i < |s| && Inserting(s, i, j) && (j == 0 || LexLe(s[j - 1], s[j]))
    ensures Sorted(s[..i + 1])
  {
    forall p | 0 <= p < j - 1
      ensures LexLe(s[p], s[j])
    {
      LexLeTransitive(s[p], s[j - 1], s[j]);
    }
  }

  /** Two permutations of each other that agree from `k` on are permutations of each other below `k`. */
  lemma PrefixPermutation(s: seq<string>, t: seq<string>, k: nat)
    requires k <= |s| == |t| && multiset(s) == multiset(t) && s[k..] == t[k..]
    ensures multiset(s[..k]) == multiset(t[..k])
  {
    assert s == s[..k] + s[k..];
    assert t == t[..k] + t[k..];
    assert multiset(s[..k]) == multiset(s) - multiset(s[k..]);
    assert multiset(t[..k]) == multiset(t) - multiset(t[k..]);
  }

  /** Exchanges `a[i]` and `a[j]`; every other element stays where it was. */
  method Swap(a: array<string>, i: nat, j: nat)
    requires i < j < a.Length
    modifies a
    ensures a[i] == old(a[j]) && a[j] == old(a[i])
    ensures forall m :: 0 <= m < a.Length && m != i && m != j ==> a[m] == old(a[m])
    ensures multiset(a[..]) == old(multiset(a[..]))
  {
    a[i], a[j] := a[j], a[i];
    assert a[..] == old(a[..])[i := old(a[j])][j := old(a[i])];
  }

  /** Two sorted arrangements of the same lines are the same list: the listing is determined by the lines. */
  lemma {:induction false} SortedUnique(s: seq<string>, t: seq<string>)
    requires Sorted(s) && Sorted(t) && multiset(s) == multiset(t)
    ensures s == t
    decreases |s|
  {
    if s != [] {
      assert |t| == |multiset(t)| == |multiset(s)| == |s|;
      assert s[0] in multiset(t);
      var j :| 0 <= j < |t| && t[j] == s[0];
      assert t[0] in multiset(s);
      var i :| 0 <= i < |s| && s[i] == t[0];
      if s[0] != t[0] {
        assert LexLe(t[0], t[j]) && LexLe(s[0], s[i]);
        LexLeAntisymmetric(s[0], t[0]);
      }
      assert s == [s[0]] + s[1..];
      assert t == [t[0]] + t[1..];
      assert multiset(s) == multiset{s[0]} + multiset(s[1..]);
      assert multiset(t) == multiset{t[0]} + multiset(t[1..]);
      assert s[0] == t[0];
      assert multiset(s[1..]) == multiset(s) - multiset{s[0]};
      assert multiset(t[1..]) == multiset(t) - multiset{t[0]};
      SortedUnique(s[1..], t[1..]);
    }
  }
}
