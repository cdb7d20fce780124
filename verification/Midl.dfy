/** midl.c: ID lists.  A list at `p` of an array has its length in a[p] and its ids after it; lists are
  * kept in descending order. */
module Midl {

  const MAXID: nat := 0xFFFF_FFFF_FFFF_FFFF
  const SMALL := 8
  const STACK := 64          // sizeof(int) * CHAR_BIT * 2
  const SORT_MAX := 0x4000_0000  // longer lists would overflow the int index l + ir

  predicate IsList(a: array<nat>, p: nat)
    reads a
  { p < a.Length && p + a[p] < a.Length }

  function Ids(a: array<nat>, p: nat): seq<nat>
    requires IsList(a, p)
    reads a
  { a[p + 1..p + 1 + a[p]] }

  predicate Descending(s: seq<nat>) { forall i, j :: 0 <= i < j < |s| ==> s[i] >= s[j] }
  predicate Strictly(s: seq<nat>) { forall i, j :: 0 <= i < j < |s| ==> s[i] > s[j] }

  // ----- Binary search -----

  /** Place i parts the ids above id from those below it. */
  predicate Missing(s: seq<nat>, i: nat, id: nat) {
    i <= |s| && (forall x :: 0 <= x < i ==> s[x] > id) && (forall x :: i <= x < |s| ==> s[x] < id)
  }

  /** mdb_midl_search: where id is, or else the first place whose id is smaller. */
  method Search(a: array<nat>, p: nat, id: nat) returns (pos: nat)
    requires IsList(a, p) && Descending(Ids(a, p))
    ensures 1 <= pos <= a[p] + 1
    ensures (pos <= a[p] && Ids(a, p)[pos - 1] == id) || Missing(Ids(a, p), pos - 1, id)
  {
    ghost var s := Ids(a, p);
    var base, cursor, val, n := 0, 1, 0, a[p];
    while 0 < n
      invariant base + n <= a[p]
      invariant forall i :: 0 <= i < base ==> s[i] > id
      invariant forall i :: base + n <= i < a[p] ==> s[i] < id
      invariant val == 0 ==> cursor == 1 && base == 0 && n == a[p]
      invariant val > 0 ==> cursor == base
      invariant val < 0 ==> cursor == base + n + 1
      invariant 1 <= cursor
    {
      var pivot := n / 2;
      cursor := base + pivot + 1;
      var x := a[p + cursor];
      assert x == s[cursor - 1];
      val := if x < id then -1 else if x > id then 1 else 0;
      if val < 0 {
        n := pivot;
      } else if val > 0 {
        base := cursor;
        n := n - (pivot + 1);
      } else {
        return cursor;
      }
    }
    if val > 0 { cursor := cursor + 1; }
    pos := cursor;
  }

  // ----- Merging -----

  /** mdb_midl_xmerge: the list at q is merged into the one at p, from its last id down; the largest
    * possible id in front stops the scan.  Both lists may be in one array. */
  method XMerge(a: array<nat>, p: nat, b: array<nat>, q: nat)
    requires IsList(a, p) && IsList(b, q) && p + a[p] + b[q] < a.Length
    requires a == b ==> p + a[p] + b[q] < q
    requires Descending(Ids(a, p)) && Descending(Ids(b, q)) && forall id :: id in Ids(b, q) ==> id <= MAXID
    modifies a
    ensures IsList(a, p) && a[p] == old(a[p] + b[q])
    ensures Descending(Ids(a, p))
    ensures multiset(Ids(a, p)) == multiset(old(Ids(a, p))) + multiset(old(Ids(b, q)))
    ensures forall x :: 0 <= x < p || p + old(a[p] + b[q]) < x < a.Length ==> a[x] == old(a[x])
  {
    hide Tail, Descending, Merging;
    ghost var xs, ys := Ids(a, p), Ids(b, q);
    var total := a[p] + b[q];
    var j := a[p];
    a[p] := MAXID;
    ghost var s0 := a[..];
    assert s0[p] == MAXID && s0[p + 1..p + 1 + |xs|] == xs;
    MergeBegins(s0, p, total, xs, ys);
    assert a == b ==> ys == Ids(b, q);
    j := MergeDown(a, p, b, q, j, s0, total, xs, ys);
    MergeDone(a[..], s0, p, total, xs, ys, j);
    MergeFrame(a[..], s0, p, total, xs, ys, j, 0);
    ghost var s1 := a[..];
    a[p] := total;
    assert a[..] == s1[p := total];
    assert Ids(a, p) == s1[p + 1..p + 1 + total];
  }

  method MergeDown(a: array<nat>, p: nat, b: array<nat>, q: nat, j0: nat,
                   ghost s0: seq<nat>, ghost total: nat, ghost xs: seq<nat>, ghost ys: seq<nat>) returns (j: nat)
    requires IsList(b, q) && ys == Ids(b, q) && p + total < a.Length && (a == b ==> p + total < q) && |s0| == a.Length
    requires a == b ==> a[..] == s0
    requires Merging(a[..], s0, p, total, xs, ys, j0, |ys|)
    modifies a
    ensures Merging(a[..], s0, p, total, xs, ys, j, 0)
  {
    hide Tail, Descending, Merging;
    MergeBounds(a[..], s0, p, total, xs, ys, j0, |ys|);
    var i := b[q];
    j := j0;
    var k := i + j;
    var old_id := a[p + j];
    while i != 0
      invariant 0 <= i <= |ys| && 0 <= j <= |xs| && k == i + j
      invariant Merging(a[..], s0, p, total, xs, ys, j, i)
      invariant old_id == a[p + j]
    {
      MergeFrame(a[..], s0, p, total, xs, ys, j, i);
      var merge_id := b[q + i];
      assert merge_id == ys[i - 1];
      while old_id < merge_id
        invariant 0 < i <= |ys| && 0 <= j <= |xs| && k == i + j
        invariant Merging(a[..], s0, p, total, xs, ys, j, i)
        invariant old_id == a[p + j]
        decreases j
      {
        MergeX(a[..], s0, p, total, xs, ys, j, i);
        a[p + k] := old_id;
        k, j := k - 1, j - 1;
        old_id := a[p + j];
      }
      MergeY(a[..], s0, p, total, xs, ys, j, i);
      i := i - 1;
      a[p + k] := merge_id;
      k := k - 1;
    }
  }

  lemma MergeBounds(s: seq<nat>, s0: seq<nat>, p: nat, total: nat, xs: seq<nat>, ys: seq<nat>, j: nat, i: nat)
    requires Merging(s, s0, p, total, xs, ys, j, i)
    ensures j <= |xs| && i <= |ys| && total == |xs| + |ys|
  {
  }

  /** The array in the course of a merge: ids 1 to j are as they were, those after i + j are done. */
  ghost predicate Merging(s: seq<nat>, s0: seq<nat>, p: nat, total: nat, xs: seq<nat>, ys: seq<nat>, j: nat, i: nat) {
    && j <= |xs| && i <= |ys| && total == |xs| + |ys| && |s| == |s0| && p + total < |s|
    && Descending(xs) && Descending(ys) && (forall id :: id in ys ==> id <= MAXID)
    && (forall x :: 0 <= x < p || p + total < x < |s| ==> s[x] == s0[x])
    && s[p] == MAXID && (forall x :: 0 <= x < j ==> s[p + 1 + x] == xs[x])
    && Tail(s[p + 1 + i + j..p + 1 + total], xs, ys, j, i)
  }

  lemma MergeBegins(s: seq<nat>, p: nat, total: nat, xs: seq<nat>, ys: seq<nat>)
    requires total == |xs| + |ys| && p + total < |s| && s[p] == MAXID && s[p + 1..p + 1 + |xs|] == xs
    requires Descending(xs) && Descending(ys) && forall id :: id in ys ==> id <= MAXID
    ensures Merging(s, s, p, total, xs, ys, |xs|, |ys|)
  {
    hide Tail, Descending;
    TailEmpty(xs, ys);
    assert s[p + 1 + total..p + 1 + total] == [];
    forall x | 0 <= x < |xs| ensures s[p + 1 + x] == xs[x] { assert s[p + 1..p + 1 + |xs|][x] == xs[x]; }
  }

  /** What is outside the merged list stays as it was. */
  lemma MergeFrame(s: seq<nat>, s0: seq<nat>, p: nat, total: nat, xs: seq<nat>, ys: seq<nat>, j: nat, i: nat)
    requires Merging(s, s0, p, total, xs, ys, j, i)
    ensures |s| == |s0| && forall x :: 0 <= x < p || p + total < x < |s| ==> s[x] == s0[x]
  {
  }

  lemma MergeX(s: seq<nat>, s0: seq<nat>, p: nat, total: nat, xs: seq<nat>, ys: seq<nat>, j: nat, i: nat)
    requires Merging(s, s0, p, total, xs, ys, j, i) && i > 0 && s[p + j] < ys[i - 1]
    ensures j > 0 && Merging(s[p + i + j := s[p + j]], s0, p, total, xs, ys, j - 1, i)
  {
    hide Tail, Descending;
    assert ys[i - 1] in ys;
    assert j > 0 && s[p + 1 + (j - 1)] == xs[j - 1];
    var t := s[p + 1 + i + j..p + 1 + total];
    TailFromX(t, xs, ys, j, i);
    assert s[p + i + j := xs[j - 1]][p + i + j..p + 1 + total] == [xs[j - 1]] + t;
  }

  lemma MergeY(s: seq<nat>, s0: seq<nat>, p: nat, total: nat, xs: seq<nat>, ys: seq<nat>, j: nat, i: nat)
    requires Merging(s, s0, p, total, xs, ys, j, i) && i > 0 && s[p + j] >= ys[i - 1]
    ensures Merging(s[p + i + j := ys[i - 1]], s0, p, total, xs, ys, j, i - 1)
  {
    hide Tail, Descending;
    assert j > 0 ==> s[p + 1 + (j - 1)] == xs[j - 1];
    var t := s[p + 1 + i + j..p + 1 + total];
    TailFromY(t, xs, ys, j, i);
    assert s[p + i + j := ys[i - 1]][p + i + j..p + 1 + total] == [ys[i - 1]] + t;
  }

  lemma MergeDone(s: seq<nat>, s0: seq<nat>, p: nat, total: nat, xs: seq<nat>, ys: seq<nat>, j: nat)
    requires Merging(s, s0, p, total, xs, ys, j, 0)
    ensures Descending(s[p + 1..p + 1 + total])
    ensures multiset(s[p + 1..p + 1 + total]) == multiset(xs) + multiset(ys)
  {
    var t := s[p + 1 + j..p + 1 + total];
    TailWhole(t, xs, ys, j);
    assert s[p + 1..p + 1 + j] == xs[..j];
    assert s[p + 1..p + 1 + total] == xs[..j] + t;
  }

  /** t holds what is right of the first j ids of xs and the first i ids of ys. */
  ghost predicate Tail(t: seq<nat>, xs: seq<nat>, ys: seq<nat>, j: nat, i: nat) {
    && j <= |xs| && i <= |ys|
    && Descending(t) && multiset(t) == multiset(xs[j..]) + multiset(ys[i..])
    && (forall x, y :: 0 <= x < j && 0 <= y < |t| ==> xs[x] >= t[y])
    && (forall x, y :: 0 <= x < i && 0 <= y < |t| ==> ys[x] >= t[y])
  }

  lemma TailEmpty(xs: seq<nat>, ys: seq<nat>)
    ensures Tail([], xs, ys, |xs|, |ys|)
  {
  }

  lemma TailFromX(t: seq<nat>, xs: seq<nat>, ys: seq<nat>, j: nat, i: nat)
    requires Tail(t, xs, ys, j, i) && Descending(xs) && Descending(ys) && j > 0
    requires i > 0 ==> xs[j - 1] <= ys[i - 1]
    ensures Tail([xs[j - 1]] + t, xs, ys, j - 1, i)
  {
    assert xs[j - 1..] == [xs[j - 1]] + xs[j..];
  }

  lemma TailFromY(t: seq<nat>, xs: seq<nat>, ys: seq<nat>, j: nat, i: nat)
    requires Tail(t, xs, ys, j, i) && Descending(xs) && Descending(ys) && i > 0
    requires j > 0 ==> xs[j - 1] >= ys[i - 1]
    ensures Tail([ys[i - 1]] + t, xs, ys, j, i - 1)
  {
    assert ys[i - 1..] == [ys[i - 1]] + ys[i..];
  }

  lemma TailWhole(t: seq<nat>, xs: seq<nat>, ys: seq<nat>, j: nat)
    requires Tail(t, xs, ys, j, 0) && Descending(xs)
    ensures Descending(xs[..j] + t) && multiset(xs[..j] + t) == multiset(xs) + multiset(ys)
  {
    assert xs == xs[..j] + xs[j..];
    assert ys[0..] == ys;
  }

  // ----- Repetitions -----

  lemma TwiceCounted(s: seq<nat>, i: nat, j: nat)
    requires i < j < |s| && s[i] == s[j]
    ensures multiset(s)[s[i]] >= 2
  {
    assert s == s[..j] + [s[j]] + s[j + 1..];
    assert s[..j][i] == s[i];
    assert multiset(s) == multiset(s[..j]) + multiset{s[j]} + multiset(s[j + 1..]);
    assert s[i] in multiset(s[..j]);
  }
}
