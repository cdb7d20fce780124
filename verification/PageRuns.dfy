/** Contiguous runs of pages in a free list: how mdb_page_alloc finds and removes one and mdb_ovpage_free
  * puts one back. */
module PageRuns {
  import opened Midl
  import opened MidlGrow

  /** The pages pgno to pgno + n - 1. */
  function Run(pgno: nat, n: nat): set<nat> { set x: nat | pgno <= x < pgno + n && Within(x, pgno, n) }

  predicate Within(x: nat, pgno: nat, n: nat) { pgno <= x < pgno + n }

  function ToSet(s: seq<nat>): set<nat> { set x | x in s }

  /** Place i ends a run of n pages, as the code tests it: the page n - 1 places before is n - 1 higher. */
  predicate RunAt(s: seq<nat>, i: nat, n: nat) { 0 < n <= i + 1 <= |s| && s[i - (n - 1)] == s[i] + (n - 1) }

  lemma {:induction false} StepsDown(s: seq<nat>, i: nat, k: nat)
    requires Strictly(s) && k <= i < |s|
    ensures s[i - k] >= s[i] + k
  {
    if k > 0 { StepsDown(s, i, k - 1); }
  }

  /** In a strictly descending list the test on two places is a test on the whole run. */
  lemma RunIsContiguous(s: seq<nat>, i: nat, n: nat)
    requires Strictly(s) && 0 < n <= i + 1 <= |s|
    ensures RunAt(s, i, n) <==> s[i - (n - 1)..i + 1] == Down(s[i], n)
    ensures RunAt(s, i, n) <==> Run(s[i], n) <= ToSet(s)
  {
    if RunAt(s, i, n) { RunListed(s, i, n); }
    if s[i - (n - 1)..i + 1] == Down(s[i], n) { assert s[i - (n - 1)] == s[i - (n - 1)..i + 1][0]; }
    if Run(s[i], n) <= ToSet(s) { RunBelow(s, i, n); }
  }

  lemma RunListed(s: seq<nat>, i: nat, n: nat)
    requires Strictly(s) && RunAt(s, i, n)
    ensures s[i - (n - 1)..i + 1] == Down(s[i], n) && Run(s[i], n) <= ToSet(s)
  {
    var t := s[i - (n - 1)..i + 1];
    forall x | 0 <= x < n ensures t[x] == s[i] + (n - 1 - x) {
      StepsDown(s, i, n - 1 - x);
      StepsDown(s, i - (n - 1 - x), x);
    }
    forall x | x in Run(s[i], n) ensures x in s { assert t[n - 1 - (x - s[i])] == x; }
  }

  /** A page of a run in the list stands as many places before as it is higher. */
  lemma {:induction false} PlaceInRun(s: seq<nat>, i: nat, k: nat)
    requires Strictly(s) && i < |s| && Run(s[i], k + 1) <= ToSet(s)
    ensures k <= i && s[i - k] == s[i] + k
  {
    if k > 0 {
      forall x | x in Run(s[i], k) ensures x in s { assert x in Run(s[i], k + 1); }
      PlaceInRun(s, i, k - 1);
      assert s[i] + k in Run(s[i], k + 1);
      var j :| 0 <= j < |s| && s[j] == s[i] + k;
      assert j < i - (k - 1);
    }
  }

  lemma RunBelow(s: seq<nat>, i: nat, n: nat)
    requires Strictly(s) && i < |s| && n > 0 && Run(s[i], n) <= ToSet(s)
    ensures RunAt(s, i, n)
  {
    PlaceInRun(s, i, n - 1);
  }

  predicate HasRun(s: seq<nat>, n: nat) { exists i :: 0 <= i < |s| && RunAt(s, i, n) }

  /** The list has a place that ends a run if and only if it has a run. */
  lemma HasRunMeans(s: seq<nat>, n: nat)
    requires Strictly(s) && n > 0
    ensures HasRun(s, n) <==> exists pgno: nat :: Run(pgno, n) <= ToSet(s)
  {
    if HasRun(s, n) {
      var i :| 0 <= i < |s| && RunAt(s, i, n);
      RunIsContiguous(s, i, n);
      assert Run(s[i], n) <= ToSet(s);
    }
    forall pgno: nat | Run(pgno, n) <= ToSet(s) ensures HasRun(s, n) {
      assert pgno in Run(pgno, n);
      var i :| 0 <= i < |s| && s[i] == pgno;
      RunBelow(s, i, n);
    }
  }

  /** The search of mdb_page_alloc: the lowest run of num pages, or 0.  i counts from 1. */
  method FindRun(a: array<nat>, p: nat, num: nat) returns (i: nat)
    requires IsList(a, p) && num > 0
    ensures i == 0 <==> !HasRun(Ids(a, p), num)
    ensures i > 0 ==> i <= a[p] && RunAt(Ids(a, p), i - 1, num)
    ensures i > 0 ==> forall j :: i <= j < a[p] ==> !RunAt(Ids(a, p), j, num)
  {
    ghost var s := Ids(a, p);
    var n2 := num - 1;
    i := a[p];
    while i > n2
      invariant i <= a[p] && forall j :: i <= j < |s| ==> !RunAt(s, j, num)
    {
      assert s[i - 1] == a[p + i] && s[i - 1 - n2] == a[p + i - n2];
      if a[p + i - n2] == a[p + i] + n2 {
        assert RunAt(s, i - 1, num);
        return;
      }
      i := i - 1;
    }
    i := 0;
  }

  /** s without the run that ends at place i. */
  function WithoutRun(s: seq<nat>, i: nat, n: nat): seq<nat>
    requires RunAt(s, i, n)
  { s[..i - (n - 1)] + s[i + 1..] }

  lemma WithoutRunOk(s: seq<nat>, i: nat, n: nat)
    requires Strictly(s) && RunAt(s, i, n)
    ensures Strictly(WithoutRun(s, i, n))
    ensures ToSet(WithoutRun(s, i, n)) == ToSet(s) - Run(s[i], n) && Run(s[i], n) <= ToSet(s)
  {
    hide Run, Strictly, WithoutRun;
    RunIsContiguous(s, i, n);
    WithoutStrictly(s, i, n);
    forall x: nat ensures x in WithoutRun(s, i, n) <==> x in s && x !in Run(s[i], n) { WithoutMember(s, i, n, x); }
  }

  lemma WithoutStrictly(s: seq<nat>, i: nat, n: nat)
    requires Strictly(s) && RunAt(s, i, n)
    ensures Strictly(WithoutRun(s, i, n))
  {
    var t := WithoutRun(s, i, n);
    assert forall k :: 0 <= k < |t| ==> t[k] == s[if k <= i - n then k else k + n];
  }

  /** The run is what stands from place i - (n - 1) to place i. */
  lemma RunPlace(s: seq<nat>, i: nat, n: nat, j: nat)
    requires Strictly(s) && RunAt(s, i, n) && j < |s|
    ensures s[j] in Run(s[i], n) <==> i - (n - 1) <= j <= i
  {
  }

  lemma WithoutMember(s: seq<nat>, i: nat, n: nat, x: nat)
    requires Strictly(s) && RunAt(s, i, n)
    ensures x in WithoutRun(s, i, n) <==> x in s && x !in Run(s[i], n)
  {
    hide Run, Strictly;
    var t := WithoutRun(s, i, n);
    if x in t {
      var k :| 0 <= k < |t| && t[k] == x;
      RunPlace(s, i, n, if k <= i - n then k else k + n);
    }
    if x in s {
      var j :| 0 <= j < |s| && s[j] == x;
      RunPlace(s, i, n, j);
      if x !in Run(s[i], n) { assert t[if j > i then j - n else j] == x; }
    }
  }

  lemma RunInList(s: seq<nat>, i: nat, n: nat)
    requires RunAt(s, i, n)
    ensures 0 < n <= i + 1 <= |s|
  {
  }

  /** The removal in mdb_page_alloc: the stragglers move down. */
  method CutRun(a: array<nat>, p: nat, i0: nat, num: nat)
    requires IsList(a, p) && 0 < i0 <= a[p] && RunAt(Ids(a, p), i0 - 1, num)
    modifies a
    ensures IsList(a, p) && Ids(a, p) == old(WithoutRun(Ids(a, p), i0 - 1, num))
    ensures forall x :: 0 <= x < p || p + old(a[p]) < x < a.Length ==> a[x] == old(a[x])
  {
    hide RunAt, WithoutRun;
    RunInList(Ids(a, p), i0 - 1, num);
    ghost var s := Ids(a, p);
    var len := a[p] - num;
    a[p] := len;
    MoveDown(a, p, i0, num, len);
    CutDone(a[..], p, s, i0, num);
  }

  /** The loop of it. */
  method MoveDown(a: array<nat>, p: nat, i0: nat, num: nat, len: nat)
    requires num <= i0 && p + len + num < a.Length && i0 - num <= len
    modifies a
    ensures forall x :: 0 <= x <= p + i0 - num || p + len < x < a.Length ==> a[x] == old(a[x])
    ensures forall x :: p + i0 - num < x <= p + len ==> a[x] == old(a[x + num])
  {
    var i, j := i0, i0 - num;
    while j < len
      invariant i0 - num <= j <= len && i == j + num
      invariant forall x :: 0 <= x <= p + i0 - num || p + j < x < a.Length ==> a[x] == old(a[x])
      invariant forall x :: p + i0 - num < x <= p + j ==> a[x] == old(a[x + num])
    {
      i, j := i + 1, j + 1;
      a[p + j] := a[p + i];
    }
  }

  lemma CutDone(m: seq<nat>, p: nat, s: seq<nat>, i0: nat, num: nat)
    requires i0 > 0 && RunAt(s, i0 - 1, num) && p + |s| < |m|
    requires forall x :: p < x <= p + i0 - num ==> m[x] == s[x - p - 1]
    requires forall x :: p + i0 - num < x <= p + |s| - num ==> m[x] == s[x - p - 1 + num]
    ensures m[p + 1..p + 1 + |s| - num] == WithoutRun(s, i0 - 1, num)
  {
  }

  // ----- Putting a run back -----

  /** The number of pages above pg. */
  function Above(s: seq<nat>, pg: nat): (i: nat)
    ensures i <= |s| && (i > 0 ==> s[i - 1] >= pg) && forall j :: i <= j < |s| ==> s[j] < pg
  { if s == [] || s[|s| - 1] >= pg then |s| else Above(s[..|s| - 1], pg) }

  /** s with the run of n pages from pg on. */
  function WithRun(s: seq<nat>, pg: nat, n: nat): seq<nat> {
    var i := Above(s, pg);
    s[..i] + Down(pg, n) + s[i..]
  }

  lemma AboveIs(s: seq<nat>, pg: nat, i: nat)
    requires i <= |s| && (i > 0 ==> s[i - 1] >= pg) && forall j :: i <= j < |s| ==> s[j] < pg
    ensures Above(s, pg) == i
  {
  }

  /** Where everything is after a run was put in at place i. */
  predicate RunPut(s: seq<nat>, i: nat, pg: nat, n: nat, t: seq<nat>) {
    && i <= |s| && |t| == |s| + n
    && (forall k :: 0 <= k < i ==> t[k] == s[k])
    && (forall k :: i <= k < i + n ==> t[k] == pg + (n - 1 - (k - i)))
    && (forall k :: i + n <= k < |t| ==> t[k] == s[k - n])
  }

  lemma WithRunPut(s: seq<nat>, pg: nat, n: nat)
    ensures RunPut(s, Above(s, pg), pg, n, WithRun(s, pg, n))
  {
  }

  lemma RunPutStrict(s: seq<nat>, i: nat, pg: nat, n: nat, t: seq<nat>)
    requires Strictly(s) && RunPut(s, i, pg, n, t)
    requires (forall j :: 0 <= j < i ==> s[j] >= pg + n) && (forall j :: i <= j < |s| ==> s[j] < pg)
    ensures Strictly(t)
  {
  }

  lemma RunPutSet(s: seq<nat>, i: nat, pg: nat, n: nat, t: seq<nat>)
    requires RunPut(s, i, pg, n, t)
    ensures ToSet(t) == ToSet(s) + Run(pg, n)
  {
    forall x | x in s ensures x in t {
      var j :| 0 <= j < |s| && s[j] == x;
      assert t[if j < i then j else j + n] == x;
    }
    forall x | x in Run(pg, n) ensures x in t { assert t[i + (n - 1 - (x - pg))] == x; }
    forall x | x in t ensures x in s || x in Run(pg, n) {
      var k :| 0 <= k < |t| && t[k] == x;
      if i <= k < i + n { assert Within(x, pg, n); }
    }
  }

  /** A run of pages that are not in the list: the list stays in order. */
  lemma WithRunOk(s: seq<nat>, pg: nat, n: nat)
    requires Strictly(s) && Run(pg, n) !! ToSet(s)
    ensures Strictly(WithRun(s, pg, n)) && ToSet(WithRun(s, pg, n)) == ToSet(s) + Run(pg, n)
  {
    hide WithRun, RunPut;
    var i, t := Above(s, pg), WithRun(s, pg, n);
    forall j | 0 <= j < i ensures s[j] >= pg + n {
      assert s[j] >= s[i - 1];
      assert s[j] in ToSet(s) && s[j] !in Run(pg, n);
    }
    WithRunPut(s, pg, n);
    RunPutStrict(s, i, pg, n, t);
    RunPutSet(s, i, pg, n, t);
  }

  lemma RunTaken(s: seq<nat>, i: nat, pg: nat, n: nat, t: seq<nat>)
    requires RunPut(s, i, pg, n, t) && n > 0
    ensures RunAt(t, i + n - 1, n) && t[i + n - 1] == pg && WithoutRun(t, i + n - 1, n) == s
  {
    assert t[i] == pg + (n - 1);
    assert t[..i] == s[..i];
    assert t[i + n..] == s[i..];
    assert s == s[..i] + s[i..];
  }

  /** Taking the run out again gives the old list. */
  lemma RunInverse(s: seq<nat>, pg: nat, n: nat)
    requires Strictly(s) && Run(pg, n) !! ToSet(s) && n > 0
    ensures var i := Above(s, pg) + n - 1;
      RunAt(WithRun(s, pg, n), i, n) && WithRun(s, pg, n)[i] == pg && WithoutRun(WithRun(s, pg, n), i, n) == s
  {
    hide WithRun, RunPut, Above;
    WithRunPut(s, pg, n);
    RunTaken(s, Above(s, pg), pg, n, WithRun(s, pg, n));
  }

  /** And putting back a run that was taken out gives the old list. */
  lemma RunRestored(s: seq<nat>, i: nat, n: nat)
    requires Strictly(s) && RunAt(s, i, n)
    ensures WithRun(WithoutRun(s, i, n), s[i], n) == s
  {
    RunIsContiguous(s, i, n);
    AboveIs(WithoutRun(s, i, n), s[i], i - (n - 1));
    assert s == s[..i - (n - 1)] + s[i - (n - 1)..i + 1] + s[i + 1..];
  }

  /** The insertion of mdb_ovpage_free: pages below pg move up, the run fills the gap. */
  method PutRun(a: array<nat>, p: nat, pg0: nat, n: nat)
    requires IsList(a, p) && p + a[p] + n < a.Length
    modifies a
    ensures IsList(a, p) && Ids(a, p) == WithRun(old(Ids(a, p)), pg0, n)
    ensures forall x :: 0 <= x < p || p + old(a[p]) + n < x < a.Length ==> a[x] == old(a[x])
  {
    hide WithRun;
    ghost var s := Ids(a, p);
    var i := MoveUp(a, p, pg0, n);
    FillRun(a, p, i, i + n, pg0, n);
    ListPut(s, i, pg0, n, a[..], p);
    ghost var b := a[..];
    a[p] := a[p] + n;
    assert Ids(a, p) == b[p + 1..p + 1 + |s| + n];
  }

  lemma ListPut(s: seq<nat>, i: nat, pg: nat, n: nat, b: seq<nat>, p: nat)
    requires p + |s| + n < |b| && i <= |s| && (i > 0 ==> s[i - 1] >= pg) && forall j :: i <= j < |s| ==> s[j] < pg
    requires forall x :: p < x <= p + i ==> b[x] == s[x - p - 1]
    requires forall x :: p + i < x <= p + i + n ==> b[x] == pg + (p + i + n - x)
    requires forall x :: p + i + n < x <= p + |s| + n ==> b[x] == s[x - p - 1 - n]
    ensures b[p + 1..p + 1 + |s| + n] == WithRun(s, pg, n)
  {
    AboveIs(s, pg, i);
    WithRunPut(s, pg, n);
    hide WithRun, Above;
    var t := b[p + 1..p + 1 + |s| + n];
    assert forall k :: 0 <= k < |s| + n ==> t[k] == b[p + 1 + k];
  }

  /** Pages below pg, from the end of the list, move up by n places. */
  method MoveUp(a: array<nat>, p: nat, pg: nat, n: nat) returns (i: nat)
    requires IsList(a, p) && p + a[p] + n < a.Length
    modifies a
    ensures a[p] == old(a[p]) && i <= a[p]
    ensures i > 0 ==> old(a[p + i]) >= pg
    ensures forall x :: p + i < x <= p + a[p] ==> old(a[x]) < pg
    ensures forall x :: p + i + n < x <= p + a[p] + n ==> a[x] == old(a[x - n])
    ensures forall x :: 0 <= x <= p + i || p + a[p] + n < x < a.Length ==> a[x] == old(a[x])
  {
    i := a[p];
    var j := i + n;
    while i > 0 && a[p + i] < pg
      invariant 0 <= i <= a[p] && j == i + n && a[p] == old(a[p])
      invariant forall x :: p + i < x <= p + a[p] ==> old(a[x]) < pg
      invariant forall x :: p + j < x <= p + a[p] + n ==> a[x] == old(a[x - n])
      invariant forall x :: 0 <= x <= p + i || p + a[p] + n < x < a.Length ==> a[x] == old(a[x])
    {
      a[p + j] := a[p + i];
      i, j := i - 1, j - 1;
    }
  }

  /** The gap is filled with the run, from its lowest page at the end up. */
  method FillRun(a: array<nat>, p: nat, i: nat, j0: nat, pg0: nat, n: nat)
    requires j0 == i + n && p + j0 < a.Length
    modifies a
    ensures forall x :: p + i < x <= p + j0 ==> a[x] == pg0 + (p + j0 - x)
    ensures forall x :: 0 <= x <= p + i || p + j0 < x < a.Length ==> a[x] == old(a[x])
  {
    var j, pg := j0, pg0;
    while j > i
      invariant i <= j <= j0 && pg == pg0 + (j0 - j)
      invariant forall x :: p + j < x <= p + j0 ==> a[x] == pg0 + (p + j0 - x)
      invariant forall x :: 0 <= x <= p + j || p + j0 < x < a.Length ==> a[x] == old(a[x])
    {
      a[p + j] := pg;
      j, pg := j - 1, pg + 1;
    }
  }
}
