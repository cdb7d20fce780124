/** How mdb_txn_commit merges the dirty and spill lists of a nested transaction into its parent's, in
  * place, and that this is what NestedTxn.Merged says. */
module NestedLists {
  import opened Midl
  import opened MidlGrow
  import opened MidlSort
  import NestedTxn

  type Entry = Pair<int>

  ghost predicate Ascending(s: seq<Entry>) {
    (forall i :: 0 <= i < |s| ==> s[i].mid > 0) && (forall i, j :: 0 <= i < j < |s| ==> s[i].mid < s[j].mid)
  }

  // ----- The merged list -----

  /** Both lists from their last entries down; on equal ids the entry of s. */
  function Merge(d: seq<Entry>, s: seq<Entry>): (r: seq<Entry>)
    ensures |d| <= |r| <= |d| + |s|
    ensures |s| <= |r|
    decreases |d| + |s|
  {
    if s == [] then d
    else if d == [] then s
    else
      var x, y := d[|d| - 1], s[|s| - 1];
      if y.mid < x.mid then Merge(d[..|d| - 1], s) + [x]
      else if y.mid == x.mid then Merge(d[..|d| - 1], s[..|s| - 1]) + [y]
      else Merge(d, s[..|s| - 1]) + [y]
  }

  function IdsOf(s: seq<Entry>): set<nat> { set e | e in s :: e.mid }

  predicate Small(s: seq<Entry>) { forall p :: p in IdsOf(s) ==> 2 * p < MAXID }

  function MapOf(s: seq<Entry>): map<nat, int> {
    if s == [] then map[] else MapOf(s[..|s| - 1])[s[|s| - 1].mid := s[|s| - 1].ptr]
  }

  lemma MapOfLast(s: seq<Entry>, e: Entry)
    ensures MapOf(s + [e]) == MapOf(s)[e.mid := e.ptr]
  {
    assert (s + [e])[..|s|] == s;
  }

  lemma MapOfParts(s: seq<Entry>)
    requires s != []
    ensures MapOf(s) == MapOf(s[..|s| - 1])[s[|s| - 1].mid := s[|s| - 1].ptr]
  {
  }

  lemma {:induction false} KeysBelow(s: seq<Entry>, r: nat)
    requires forall i :: 0 <= i < |s| ==> s[i].mid < r
    ensures forall p :: p in MapOf(s) ==> p < r
  {
    if s != [] { KeysBelow(s[..|s| - 1], r); }
  }

  lemma AscendingFront(s: seq<Entry>)
    requires Ascending(s) && s != []
    ensures Ascending(s[..|s| - 1]) && forall i :: 0 <= i < |s| - 1 ==> s[i].mid < s[|s| - 1].mid
  {
  }

  lemma AscendingLast(s: seq<Entry>, e: Entry)
    requires Ascending(s) && e.mid > 0 && (forall p :: p in MapOf(s) ==> p < e.mid)
    ensures Ascending(s + [e])
  {
    forall i | 0 <= i < |s| ensures s[i].mid < e.mid { KeyIn(s, i); }
  }

  lemma {:induction false} KeyIn(s: seq<Entry>, i: nat)
    requires i < |s|
    ensures s[i].mid in MapOf(s)
    decreases |s|
  {
    if i < |s| - 1 { KeyIn(s[..|s| - 1], i); }
  }

  lemma MapsUpdated(a: map<nat, int>, b: map<nat, int>, p: nat, u: int, v: int)
    ensures p !in b ==> a[p := v] + b == (a + b)[p := v]
    ensures a + b[p := v] == (a + b)[p := v]
    ensures a[p := u] + b[p := v] == (a + b)[p := v]
  {
  }

  /** Entry e goes on top of a merged list of entries below it. */
  lemma MergeStep(m: seq<Entry>, d: seq<Entry>, s: seq<Entry>, e: Entry)
    requires Ascending(m) && MapOf(m) == MapOf(d) + MapOf(s) && e.mid > 0
    requires (forall i :: 0 <= i < |d| ==> d[i].mid < e.mid) && (forall i :: 0 <= i < |s| ==> s[i].mid < e.mid)
    ensures Ascending(m + [e]) && MapOf(m + [e]) == (MapOf(d) + MapOf(s))[e.mid := e.ptr] && e.mid !in MapOf(s)
  {
    KeysBelow(d, e.mid);
    KeysBelow(s, e.mid);
    AscendingLast(m, e);
    MapOfLast(m, e);
  }

  /** The merged list is in order and stands for the map of d overridden by that of s. */
  lemma {:induction false} MergeOk(d: seq<Entry>, s: seq<Entry>)
    requires Ascending(d) && Ascending(s)
    ensures Ascending(Merge(d, s)) && MapOf(Merge(d, s)) == MapOf(d) + MapOf(s)
    decreases |d| + |s|
  {
    hide Ascending, MapOf;
    MapOfNothing();
    if s != [] && d != [] {
      var x, y := d[|d| - 1], s[|s| - 1];
      var d', s' := d[..|d| - 1], s[..|s| - 1];
      LastPositive(d);
      LastPositive(s);
      AscendingFront(d);
      AscendingFront(s);
      MapOfParts(d);
      MapOfParts(s);
      if y.mid < x.mid {
        MergeOk(d', s);
        MergeStep(Merge(d', s), d', s, x);
        MapsUpdated(MapOf(d'), MapOf(s), x.mid, 0, x.ptr);
      } else if y.mid == x.mid {
        MergeOk(d', s');
        MergeStep(Merge(d', s'), d', s', y);
        MapsUpdated(MapOf(d'), MapOf(s'), y.mid, x.ptr, y.ptr);
      } else {
        MergeOk(d, s');
        MergeStep(Merge(d, s'), d, s', y);
        MapsUpdated(MapOf(d), MapOf(s'), y.mid, 0, y.ptr);
      }
    }
  }

  lemma MapOfNothing()
    ensures MapOf([]) == map[]
  {
  }

  lemma LastPositive(s: seq<Entry>)
    requires Ascending(s) && s != []
    ensures s[|s| - 1].mid > 0
  {
  }

  // ----- One entry of the merge -----

  lemma TopOfD(d: seq<Entry>, s: seq<Entry>, x: nat, y: nat)
    requires 0 < x <= |d| && 0 < y <= |s| && s[y - 1].mid < d[x - 1].mid
    ensures Merge(d[..x], s[..y]) == Merge(d[..x - 1], s[..y]) + [d[x - 1]]
  {
    assert d[..x][..x - 1] == d[..x - 1];
  }

  lemma TopOfBoth(d: seq<Entry>, s: seq<Entry>, x: nat, y: nat)
    requires 0 < x <= |d| && 0 < y <= |s| && s[y - 1].mid == d[x - 1].mid
    ensures Merge(d[..x], s[..y]) == Merge(d[..x - 1], s[..y - 1]) + [s[y - 1]]
  {
    assert d[..x][..x - 1] == d[..x - 1] && s[..y][..y - 1] == s[..y - 1];
  }

  lemma TopOfS(d: seq<Entry>, s: seq<Entry>, x: nat, y: nat)
    requires x <= |d| && 0 < y <= |s| && (x > 0 ==> d[x - 1].mid < s[y - 1].mid)
    ensures Merge(d[..x], s[..y]) == Merge(d[..x], s[..y - 1]) + [s[y - 1]]
  {
    assert s[..y][..y - 1] == s[..y - 1];
    if x == 0 { assert d[..x] == [] && s[..y] == s[..y - 1] + [s[y - 1]]; }
  }

  lemma {:induction false} TopRun(d: seq<Entry>, s: seq<Entry>, y: nat)
    requires Ascending(s) && y <= |s| && forall k :: y <= k < |s| && d != [] ==> d[|d| - 1].mid < s[k].mid
    ensures |Merge(d, s)| == |Merge(d, s[..y])| + |s| - y
    decreases |s|
  {
    hide Merge;
    if y < |s| {
      var s' := s[..|s| - 1];
      assert d[..|d|] == d && s[..|s|] == s;
      TopOfS(d, s, |d|, |s|);
      TopRun(d, s', y);
      assert s'[..y] == s[..y];
    } else {
      assert s[..y] == s;
    }
  }

  lemma AscendingRising(s: seq<Entry>)
    requires Ascending(s)
    ensures Rising(Mids(s))
  {
  }

  /** The first x entries of dst are those of d, and its count is put to 0 as a delimiter. */
  ghost predicate Holds(a: seq<Entry>, d: seq<Entry>, x: nat) {
    x <= |d| && x < |a| && a[0].mid == 0 && forall k :: 1 <= k <= x ==> a[k] == d[k - 1]
  }

  /** How many ids the first entries of both lists share. */
  function Shared(d: seq<Entry>, s: seq<Entry>, i: nat, y: nat): nat
    requires i <= |d| && y <= |s|
  { i + y - |Merge(d[..i], s[..y])| }

  lemma SharedLess(d: seq<Entry>, s: seq<Entry>, i: nat, y: nat)
    requires 0 < i <= |d| && 0 < y <= |s|
    ensures s[y - 1].mid < d[i - 1].mid ==> Shared(d, s, i, y) == Shared(d, s, i - 1, y)
    ensures s[y - 1].mid == d[i - 1].mid ==> Shared(d, s, i, y) == Shared(d, s, i - 1, y - 1) + 1
    ensures s[y - 1].mid > d[i - 1].mid ==> Shared(d, s, i, y) == Shared(d, s, i, y - 1)
  {
    hide Merge;
    if s[y - 1].mid < d[i - 1].mid {
      TopOfD(d, s, i, y);
    } else if s[y - 1].mid == d[i - 1].mid {
      TopOfBoth(d, s, i, y);
    } else {
      TopOfS(d, s, i, y);
    }
  }

  lemma SharedNone(d: seq<Entry>, s: seq<Entry>, i: nat, y: nat)
    requires i <= |d| && y <= |s| && (i == 0 || y == 0)
    ensures Shared(d, s, i, y) == 0
  {
  }

  lemma SharedAll(d: seq<Entry>, s: seq<Entry>, y: nat)
    requires Ascending(s) && y <= |s| && forall k :: y <= k < |s| && d != [] ==> d[|d| - 1].mid < s[k].mid
    ensures |Merge(d, s)| == |d| + |s| - Shared(d, s, |d|, y)
  {
    TopRun(d, s, y);
    assert d[..|d|] == d;
  }

  /** The length of the merged list, when the parent has a parent too. */
  method MergedLen(dst: array<Entry>, x: nat, src: array<Entry>, ghost d: seq<Entry>) returns (len: nat)
    requires IsList2(src) && Ascending(Pairs(src)) && Ascending(d) && x == |d| && Holds(dst[..], d, x)
    ensures len == |Merge(d, Pairs(src))|
  {
    hide Shared, Merge;
    ghost var s := Pairs(src);
    assert forall k :: 1 <= k <= |s| ==> src[k] == s[k - 1];
    AscendingRising(s);
    var pos := Search2(src, dst[x].mid + 1);
    var y, i := pos - 1, x;
    SharedAll(d, s, y);
    len := x + src[0].mid;
    ghost var shared: nat := 0;
    while y > 0 && i > 0
      invariant 0 <= y <= |s| && 0 <= i <= x && len == x + |s| - shared
      invariant Shared(d, s, x, pos - 1) == shared + Shared(d, s, i, y)
      decreases y
    {
      var yp := src[y].mid;
      assert yp > 0;
      while yp < dst[i].mid
        invariant 0 <= i <= x
        invariant Shared(d, s, x, pos - 1) == shared + Shared(d, s, i, y)
        decreases i
      {
        SharedLess(d, s, i, y);
        i := i - 1;
      }
      if i > 0 { SharedLess(d, s, i, y); }
      if yp == dst[i].mid { i, len, shared := i - 1, len - 1, shared + 1; }
      y := y - 1;
      SharedNone2(d, s, i, y);
    }
    SharedNone(d, s, i, y);
  }

  /** With nothing of d left there is nothing to share. */
  lemma SharedNone2(d: seq<Entry>, s: seq<Entry>, i: nat, y: nat)
    requires i <= |d| && y < |s|
    ensures i == 0 ==> Shared(d, s, i, y) == 0 == Shared(d, s, i, y + 1)
  {
    if i == 0 {
      SharedNone(d, s, 0, y);
      SharedNone(d, s, 0, y + 1);
    }
  }

  /** In the course of the merge: entries above i are final, those up to x are still d's. */
  ghost predicate Merging(a: seq<Entry>, d: seq<Entry>, s: seq<Entry>, x: nat, y: nat, i: nat) {
    var full := Merge(d, s);
    && Holds(a, d, x) && y <= |s| && x <= i <= |full| < |a|
    && full[..i] == Merge(d[..x], s[..y])
    && forall k :: i < k <= |full| ==> a[k] == full[k - 1]
  }

  lemma MoveX(a: seq<Entry>, d: seq<Entry>, s: seq<Entry>, x: nat, y: nat, i: nat)
    requires Merging(a, d, s, x, y, i) && y > 0 && s[y - 1].mid < a[x].mid
    ensures 0 < x <= i && Merging(a[i := a[x]], d, s, x - 1, y, i - 1)
  {
    hide Merge;
    TopOfD(d, s, x, y);
    var full := Merge(d, s);
    assert full[..i - 1] == full[..i][..i - 1];
    assert full[i - 1] == full[..i][i - 1];
  }

  lemma MoveY(a: seq<Entry>, d: seq<Entry>, s: seq<Entry>, x: nat, y: nat, i: nat)
    requires Merging(a, d, s, x, y, i) && y > 0 && a[x].mid <= s[y - 1].mid && s[y - 1].mid > 0
    ensures var x' := if a[x].mid == s[y - 1].mid then x - 1 else x;
      0 <= x' < i && Merging(a[i := s[y - 1]], d, s, x', y - 1, i - 1)
  {
    hide Merge;
    if a[x].mid == s[y - 1].mid { TopOfBoth(d, s, x, y); } else { TopOfS(d, s, x, y); }
    var full := Merge(d, s);
    assert full[..i - 1] == full[..i][..i - 1];
    assert full[i - 1] == full[..i][i - 1];
  }

  lemma MergeBegins(a: seq<Entry>, d: seq<Entry>, s: seq<Entry>)
    requires Holds(a, d, |d|) && |Merge(d, s)| < |a|
    ensures Merging(a, d, s, |d|, |s|, |Merge(d, s)|)
  {
    assert d[..|d|] == d && s[..|s|] == s;
  }

  lemma MergeEnds(a: seq<Entry>, d: seq<Entry>, s: seq<Entry>, x: nat, i: nat)
    requires Merging(a, d, s, x, 0, i)
    ensures i == x && a[1..1 + |Merge(d, s)|] == Merge(d, s)
  {
    var full := Merge(d, s);
    assert Merge(d[..x], s[..0]) == d[..x];
    assert forall k :: 0 <= k < i ==> full[k] == full[..i][k] == d[k];
  }

  /** The merge of the dirty lists, from the end; where the first entries are in place, i == x. */
  method MergeDirty(dst: array<Entry>, x0: nat, src: array<Entry>, len: nat, ghost d: seq<Entry>)
    requires dst != src && IsList2(src) && Ascending(Pairs(src)) && x0 == |d| && Holds(dst[..], d, x0)
    requires len == |Merge(d, Pairs(src))| < dst.Length
    modifies dst
    ensures IsList2(dst) && Pairs(dst) == Merge(d, Pairs(src))
  {
    hide Merging, Ascending;
    ghost var s := Pairs(src);
    SrcPositive(src);
    MergeBegins(dst[..], d, s);
    var x, y, i := x0, src[0].mid, len;
    while y > 0
      invariant 0 <= y <= |s| && 0 <= x <= i && Merging(dst[..], d, s, x, y, i)
    {
      var yp := src[y].mid;
      MergingBounds(dst[..], d, s, x, y, i);
      while yp < dst[x].mid
        invariant 0 <= x <= i < dst.Length && Merging(dst[..], d, s, x, y, i)
        decreases x
      {
        MoveX(dst[..], d, s, x, y, i);
        dst[i] := dst[x];
        i, x := i - 1, x - 1;
      }
      MoveY(dst[..], d, s, x, y, i);
      if yp == dst[x].mid { x := x - 1; }
      dst[i] := src[y];
      i, y := i - 1, y - 1;
    }
    MergeEnds(dst[..], d, s, x, i);
    assert i == x;
    ghost var a := dst[..];
    dst[0] := dst[0].(mid := len);
    assert Pairs(dst) == a[1..1 + len];
  }

  lemma SrcPositive(src: array<Entry>)
    requires IsList2(src) && Ascending(Pairs(src))
    ensures forall k :: 1 <= k <= src[0].mid ==> src[k] == Pairs(src)[k - 1] && src[k].mid > 0
  {
    assert forall k :: 1 <= k <= src[0].mid ==> src[k] == Pairs(src)[k - 1];
  }

  lemma MergingBounds(a: seq<Entry>, d: seq<Entry>, s: seq<Entry>, x: nat, y: nat, i: nat)
    requires Merging(a, d, s, x, y, i)
    ensures x <= i < |a|
  {
  }

  // ----- Spill lists -----

  /** A spill list holds 2 * pgno for a spilled page, and an odd number where one was deleted. */
  predicate SpillOk(s: seq<nat>) {
    Descending(s) && forall i, j :: 0 <= i < j < |s| && s[i] == s[j] ==> s[i] % 2 == 1
  }

  function Live(s: seq<nat>): set<nat> { set v | v in s && v % 2 == 0 :: v / 2 }

  lemma LiveIs(s: seq<nat>, p: nat)
    ensures p in Live(s) <==> 2 * p in s
  {
    if 2 * p in s { assert 2 * p / 2 == p && (2 * p) % 2 == 0; }
  }

  /** Entry k of the list is marked if the page is among the first n of src. */
  predicate Gone(s: seq<Entry>, n: nat, v: nat)
    requires n <= |s|
  { exists j :: 0 <= j < n && 2 * s[j].mid == v }

  /** In the course of marking: entries after x are decided, those up to x are above the last page seen. */
  ghost predicate Marking(b: seq<nat>, old_: seq<nat>, s: seq<Entry>, n: nat, x: nat, y: nat) {
    && |b| == |old_| && n <= |s| && x <= y < |b|
    && (forall k :: 1 <= k <= y ==> b[k] == old_[k])
    && (forall k :: x < k < |b| && Gone(s, n, old_[k]) ==> b[k] == 1)
    && (forall k :: x < k < |b| && !Gone(s, n, old_[k]) ==> b[k] == old_[k])
    && (forall k :: 1 <= k <= x ==> n == 0 || old_[k] > 2 * s[n - 1].mid)
    && (forall k :: x < k < |b| ==> n > 0 && old_[k] <= 2 * s[n - 1].mid)
  }

  /** One page of src: the entries below it are passed, its own is marked. */
  lemma MarkOne(b: seq<nat>, old_: seq<nat>, s: seq<Entry>, n: nat, x0: nat, y: nat, x: nat)
    requires Marking(b, old_, s, n, x0, y) && n < |s| && Ascending(s) && x <= x0 && |old_| > 0 && SpillOk(old_[1..])
    requires (forall k :: x < k <= x0 ==> old_[k] < 2 * s[n].mid) && (x > 0 ==> old_[x] >= 2 * s[n].mid)
    ensures x > 0 && b[x] == 2 * s[n].mid ==> Marking(b[x := 1], old_, s, n + 1, x - 1, x - 1)
    ensures !(x > 0 && b[x] == 2 * s[n].mid) ==> Marking(b, old_, s, n + 1, x, y)
  {
    hide Gone, SpillOk;
    var pn := 2 * s[n].mid;
    OldOrder(old_);
    forall v ensures Gone(s, n + 1, v) <==> Gone(s, n, v) || v == pn { GoneNext(s, n, v); }
    forall k | 1 <= k <= x0 ensures !Gone(s, n, old_[k]) { AboveNotGone(s, n, old_[k]); }
  }

  lemma GoneNext(s: seq<Entry>, n: nat, v: nat)
    requires n < |s|
    ensures Gone(s, n + 1, v) <==> Gone(s, n, v) || v == 2 * s[n].mid
  {
    if Gone(s, n, v) {
      var j :| 0 <= j < n && 2 * s[j].mid == v;
      assert 0 <= j < n + 1;
    }
  }

  lemma AboveNotGone(s: seq<Entry>, n: nat, v: nat)
    requires n <= |s| && Ascending(s) && (n > 0 ==> v > 2 * s[n - 1].mid)
    ensures !Gone(s, n, v)
  {
  }

  lemma OldOrder(old_: seq<nat>)
    requires |old_| > 0 && SpillOk(old_[1..])
    ensures forall i, j :: 1 <= i < j < |old_| ==> old_[i] >= old_[j] && (old_[i] == old_[j] ==> old_[i] % 2 == 1)
  {
    forall i, j | 1 <= i < j < |old_| ensures old_[i] >= old_[j] && (old_[i] == old_[j] ==> old_[i] % 2 == 1) {
      assert old_[i] == old_[1..][i - 1] && old_[j] == old_[1..][j - 1];
    }
  }

  /** The entries of t that are neither deleted nor among the pages of s. */
  function Keep(t: seq<nat>, s: seq<Entry>): seq<nat> {
    if t == [] then [] else
      var v := t[|t| - 1];
      Keep(t[..|t| - 1], s) + (if v % 2 == 0 && !Gone(s, |s|, v) then [v] else [])
  }

  lemma {:induction false} KeepMembers(t: seq<nat>, s: seq<Entry>, v: nat)
    ensures v in Keep(t, s) <==> v in t && v % 2 == 0 && !Gone(s, |s|, v)
  {
    if t != [] {
      KeepMembers(t[..|t| - 1], s, v);
      assert t == t[..|t| - 1] + [t[|t| - 1]];
    }
  }

  lemma {:induction false} KeepOrder(pre: seq<nat>, t: seq<nat>, s: seq<Entry>)
    requires SpillOk(pre + t)
    ensures SpillOk(pre + Keep(t, s))
  {
    hide SpillOk;
    if t != [] {
      var front, v := t[..|t| - 1], t[|t| - 1];
      assert pre + t == (pre + front) + [v];
      SpillFront(pre + front, v);
      KeepOrder(pre, front, s);
      var kept := pre + Keep(front, s);
      if v % 2 == 0 && !Gone(s, |s|, v) {
        forall i | 0 <= i < |kept| ensures kept[i] > v { KeptOver(pre, front, s, v, i); }
        SpillAppend(kept, v);
        assert pre + Keep(t, s) == kept + [v];
      } else {
        assert Keep(t, s) == Keep(front, s);
      }
    } else {
      assert pre + Keep(t, s) == pre + t;
    }
  }

  lemma KeptOver(pre: seq<nat>, front: seq<nat>, s: seq<Entry>, v: nat, i: nat)
    requires AllOver(pre + front, v) && i < |pre + Keep(front, s)|
    ensures (pre + Keep(front, s))[i] > v
  {
    if i >= |pre| {
      KeepMembers(front, s, Keep(front, s)[i - |pre|]);
      var j :| 0 <= j < |front| && front[j] == Keep(front, s)[i - |pre|];
      assert (pre + front)[|pre| + j] == front[j];
    } else {
      assert (pre + front)[i] == pre[i];
    }
  }

  predicate AllOver(s: seq<nat>, v: nat) { forall i :: 0 <= i < |s| ==> s[i] > v }

  lemma SpillFront(s: seq<nat>, v: nat)
    requires SpillOk(s + [v])
    ensures SpillOk(s) && (v % 2 == 0 ==> AllOver(s, v))
  {
    var t := s + [v];
    forall i, j | 0 <= i < j < |t| ensures t[i] >= t[j] && (t[i] == t[j] ==> t[i] % 2 == 1) { }
    forall i | 0 <= i < |s| ensures s[i] >= v && (s[i] == v ==> v % 2 == 1) { assert t[i] >= t[|s|]; }
    forall i, j | 0 <= i < j < |s| ensures s[i] >= s[j] && (s[i] == s[j] ==> s[i] % 2 == 1) { assert t[i] == s[i] && t[j] == s[j]; }
  }

  lemma SpillAppend(s: seq<nat>, v: nat)
    requires SpillOk(s) && AllOver(s, v)
    ensures SpillOk(s + [v])
  {
  }

  /** Mark the pages of src as deleted: y is the last place before the first mark. */
  method Mark(sp: array<nat>, src: array<Entry>) returns (y: nat)
    requires IsList(sp, 0) && sp[0] > 0 && SpillOk(Ids(sp, 0)) && IsList2(src) && Ascending(Pairs(src))
    requires Small(Pairs(src))
    modifies sp
    ensures y <= old(sp[0]) && sp[0] == MAXID
    ensures var n, s := old(sp[0]), Pairs(src);
      (forall k :: 1 <= k <= y ==> sp[k] == old(sp[k]) && !Gone(s, |s|, sp[k])) &&
      (forall k :: y < k <= n ==> sp[k] == if Gone(s, |s|, old(sp[k])) then 1 else old(sp[k]))
    ensures forall k :: old(sp[0]) < k < sp.Length ==> sp[k] == old(sp[k])
  {
    hide Marking, Ascending;
    ghost var old_, s := sp[..1 + sp[0]], Pairs(src);
    assert old_[1..] == Ids(sp, 0);
    SrcPositive(src);
    var len := sp[0];
    var x: nat := len;
    y := len;
    sp[0] := MAXID;
    MarkBegins(sp[..1 + len], old_, s);
    var i := 0;
    while i < src[0].mid
      invariant 0 <= i <= |s| && |old_| == len + 1 && sp[0] == MAXID && x <= y <= len && Marking(sp[..1 + len], old_, s, i, x, y)
      invariant forall k :: len < k < sp.Length ==> sp[k] == old(sp[k])
    {
      i := i + 1;
      var pn := 2 * src[i].mid;
      assert src[i] == s[i - 1] && s[i - 1] in s && s[i - 1].mid in IdsOf(s);
      ghost var x0 := x;
      MarkingUnread(sp[..1 + len], old_, s, i - 1, x, y);
      while pn > sp[x]
        invariant x <= x0 && forall k :: x < k <= x0 ==> old_[k] < pn
        decreases x
      {
        x := x - 1;
      }
      MarkOne(sp[..1 + len], old_, s, i - 1, x0, y, x);
      if pn == sp[x] {
        ghost var b := sp[..1 + len];
        sp[x] := 1;
        assert sp[..1 + len] == b[x := 1];
        x := x - 1;
        y := x;
      }
    }
    MarkEnds(sp[..1 + len], old_, s, x, y);
  }

  lemma MarkBegins(b: seq<nat>, old_: seq<nat>, s: seq<Entry>)
    requires |b| == |old_| > 0 && forall k :: 1 <= k < |b| ==> b[k] == old_[k]
    ensures Marking(b, old_, s, 0, |b| - 1, |b| - 1)
  {
  }

  lemma MarkingUnread(b: seq<nat>, old_: seq<nat>, s: seq<Entry>, n: nat, x: nat, y: nat)
    requires Marking(b, old_, s, n, x, y)
    ensures |b| == |old_| && forall k :: 1 <= k <= y ==> b[k] == old_[k]
  {
  }

  lemma MarkEnds(b: seq<nat>, old_: seq<nat>, s: seq<Entry>, x: nat, y: nat)
    requires Marking(b, old_, s, |s|, x, y) && Ascending(s)
    ensures |b| == |old_| && y < |b|
    ensures forall k :: 1 <= k <= y ==> b[k] == old_[k]
    ensures forall k :: y < k < |b| ==> b[k] == if Gone(s, |s|, old_[k]) then 1 else old_[k]
    ensures forall k :: 1 <= k <= y ==> !Gone(s, |s|, old_[k])
  {
    forall k | 1 <= k <= x ensures !Gone(s, |s|, old_[k]) { AboveNotGone(s, |s|, old_[k]); }
  }

  /** Squash the deleted entries after place y0. */
  method Squash(sp: array<nat>, y0: nat, len: nat, ghost old_: seq<nat>, ghost s: seq<Entry>)
    requires y0 <= len < sp.Length && |old_| == len + 1
    requires forall k :: 1 <= k <= y0 ==> sp[k] == old_[k]
    requires forall k :: y0 < k <= len ==> sp[k] == if Gone(s, |s|, old_[k]) then 1 else old_[k]
    modifies sp
    ensures IsList(sp, 0) && sp[0] <= len && Ids(sp, 0) == old_[1..1 + y0] + Keep(old_[1 + y0..], s)
    ensures forall k :: len < k < sp.Length ==> sp[k] == old(sp[k])
  {
    hide Keep, Gone;
    var x, y := y0, y0;
    ghost var pre := old_[1..1 + y0];
    ghost var kept := [];
    KeepNothing(old_[1 + y0..1 + x], s);
    while x < len
      invariant y0 <= y <= x <= len && kept == Keep(old_[1 + y0..1 + x], s) && y == y0 + |kept|
      invariant forall k :: 1 <= k <= y0 ==> sp[k] == old_[k]
      invariant forall k :: y0 < k <= y ==> sp[k] == kept[k - y0 - 1]
      invariant forall k :: x < k <= len ==> sp[k] == if Gone(s, |s|, old_[k]) then 1 else old_[k]
      invariant forall k :: len < k < sp.Length ==> sp[k] == old(sp[k])
    {
      x := x + 1;
      KeepNext(old_, 1 + y0, x, s);
      if sp[x] % 2 == 0 {
        y := y + 1;
        sp[y] := sp[x];
        kept := kept + [old_[x]];
      }
    }
    assert old_[1 + y0..1 + x] == old_[1 + y0..];
    sp[0] := y;
    assert Ids(sp, 0) == pre + kept;
  }

  lemma KeepNothing(t: seq<nat>, s: seq<Entry>)
    requires t == []
    ensures Keep(t, s) == []
  {
  }

  lemma KeepNext(old_: seq<nat>, from: nat, x: nat, s: seq<Entry>)
    requires from <= x < |old_|
    ensures Keep(old_[from..x + 1], s) == Keep(old_[from..x], s) + (if old_[x] % 2 == 0 && !Gone(s, |s|, old_[x]) then [old_[x]] else [])
  {
    hide Gone, Keep;
    var t := old_[from..x + 1];
    assert t == old_[from..x] + [old_[x]];
    KeepLast(old_[from..x], old_[x], s);
  }

  lemma KeepLast(t: seq<nat>, v: nat, s: seq<Entry>)
    ensures Keep(t + [v], s) == Keep(t, s) + (if v % 2 == 0 && !Gone(s, |s|, v) then [v] else [])
  {
    hide Gone;
    assert (t + [v])[..|t|] == t;
  }

  lemma SquashedOk(old_: seq<nat>, y: nat, s: seq<Entry>, t: seq<nat>)
    requires SpillOk(old_) && y <= |old_| && t == old_[..y] + Keep(old_[y..], s)
    requires forall k :: 0 <= k < y ==> !Gone(s, |s|, old_[k])
    ensures SpillOk(t) && Live(t) == Live(old_) - IdsOf(s)
  {
    hide SpillOk, Live, IdsOf, Gone, Keep;
    CutJoins(old_, y);
    KeepOrder(old_[..y], old_[y..], s);
    forall p ensures p in Live(t) <==> p in Live(old_) && p !in IdsOf(s) { SquashedLive(old_[..y], old_[y..], s, p); }
  }

  lemma CutJoins(s: seq<nat>, y: nat)
    requires y <= |s|
    ensures s == s[..y] + s[y..]
  {
  }

  lemma SquashedLive(a: seq<nat>, b: seq<nat>, s: seq<Entry>, p: nat)
    requires forall k :: 0 <= k < |a| ==> !Gone(s, |s|, a[k])
    ensures p in Live(a + Keep(b, s)) <==> p in Live(a + b) && p !in IdsOf(s)
  {
    hide Live, IdsOf, Gone, Keep;
    var v := 2 * p;
    LiveIs(a + Keep(b, s), p);
    LiveIs(a + b, p);
    KeepMembers(b, s, v);
    GoneIs(s, p);
    InEither(a, b, v);
    InEither(a, Keep(b, s), v);
  }

  lemma InEither(a: seq<nat>, b: seq<nat>, v: nat)
    ensures v in a + b <==> v in a || v in b
  {
  }

  lemma GoneIs(s: seq<Entry>, p: nat)
    ensures Gone(s, |s|, 2 * p) <==> p in IdsOf(s)
  {
    if p in IdsOf(s) {
      var e :| e in s && e.mid == p;
      var j :| 0 <= j < |s| && s[j] == e;
    }
  }

  /** Remove the pages of the dirty list from the parent's spill list. */
  method RemoveDirty(sp: array<nat>, src: array<Entry>)
    requires IsList(sp, 0) && SpillOk(Ids(sp, 0)) && IsList2(src) && Ascending(Pairs(src))
    requires Small(Pairs(src))
    modifies sp
    ensures IsList(sp, 0) && SpillOk(Ids(sp, 0)) && sp[0] <= old(sp[0])
    ensures Live(Ids(sp, 0)) == Live(old(Ids(sp, 0))) - IdsOf(Pairs(src))
    ensures forall k :: old(sp[0]) < k < sp.Length ==> sp[k] == old(sp[k])
  {
    hide SpillOk, Live, Ascending, Keep, IdsOf;
    ghost var ids := Ids(sp, 0);
    var len := sp[0];
    if len == 0 {
      LiveNothing(ids, IdsOf(Pairs(src)));
      return;
    }
    ghost var old_ := sp[..1 + len];
    var y := Mark(sp, src);
    Squash(sp, y, len, old_, Pairs(src));
    assert old_[1..1 + y] == ids[..y] && old_[1 + y..] == ids[y..];
    assert forall k :: 0 <= k < y ==> ids[k] == old_[k + 1];
    SquashedOk(ids, y, Pairs(src), Ids(sp, 0));
  }

  lemma LiveNothing(s: seq<nat>, more: set<nat>)
    requires s == []
    ensures Live(s) == {} == Live(s) - more
  {
  }

  // ----- Removing spilled pages from the parent's dirty list -----

  lemma {:induction false} MapOfRemoved(s: seq<Entry>, k: nat)
    requires Ascending(s) && k < |s|
    ensures MapOf(s[..k] + s[k + 1..]) == MapOf(s) - {s[k].mid}
    decreases |s|
  {
    hide MapOf, Ascending;
    var n := |s| - 1;
    AscendingFront(s);
    MapOfParts(s);
    if k == n {
      assert s[..k] + s[k + 1..] == s[..n];
      KeysBelow(s[..n], s[n].mid);
    } else {
      var front := s[..n];
      MapOfRemoved(front, k);
      assert s[..k] + s[k + 1..] == (front[..k] + front[k + 1..]) + [s[n]];
      MapOfLast(front[..k] + front[k + 1..], s[n]);
    }
  }

  lemma AscendingRemoved(s: seq<Entry>, k: nat)
    requires Ascending(s) && k < |s|
    ensures Ascending(s[..k] + s[k + 1..])
  {
  }

  method RemoveAt(dst: array<Entry>, y0: nat)
    requires IsList2(dst) && 1 <= y0 <= dst[0].mid
    modifies dst
    ensures IsList2(dst) && Pairs(dst) == old(Pairs(dst)[..y0 - 1] + Pairs(dst)[y0..])
  {
    ghost var s := Pairs(dst);
    var y := y0;
    while y < dst[0].mid
      invariant y0 <= y <= dst[0].mid && dst[0] == old(dst[0])
      invariant forall k :: 1 <= k < y0 ==> dst[k] == s[k - 1]
      invariant forall k :: y0 <= k < y ==> dst[k] == s[k]
      invariant forall k :: y < k <= dst[0].mid ==> dst[k] == s[k - 1]
    {
      dst[y] := dst[y + 1];
      y := y + 1;
    }
    dst[0] := dst[0].(mid := dst[0].mid - 1);
    assert Pairs(dst) == s[..y0 - 1] + s[y0..];
  }

  lemma {:induction false} NotAKey(s: seq<Entry>, p: nat)
    requires forall k :: 0 <= k < |s| ==> s[k].mid != p
    ensures p !in MapOf(s)
  {
    if s != [] { NotAKey(s[..|s| - 1], p); }
  }

  lemma LiveNext(s: seq<nat>, v: nat)
    ensures Live(s + [v]) == Live(s) + (if v % 2 == 0 then {v / 2} else {})
  {
    forall p: nat ensures p in Live(s + [v]) <==> p in Live(s) || (v % 2 == 0 && p == v / 2) {
      LiveIs(s + [v], p);
      LiveIs(s, p);
      InEither(s, [v], 2 * p);
    }
  }

  lemma LiveLess(s: seq<nat>, i: nat, m: map<nat, int>)
    requires i < |s|
    ensures m - Live(s[..i + 1]) == if s[i] % 2 == 0 then (m - Live(s[..i])) - {s[i] / 2} else m - Live(s[..i])
  {
    hide Live;
    assert s[..i + 1] == s[..i] + [s[i]];
    LiveNext(s[..i], s[i]);
  }

  /** Remove the pages of the spill list from the parent's dirty list. */
  method RemoveSpilled(dst: array<Entry>, sp: array<nat>)
    requires IsList2(dst) && Ascending(Pairs(dst)) && IsList(sp, 0)
    modifies dst
    ensures IsList2(dst) && Ascending(Pairs(dst)) && MapOf(Pairs(dst)) == old(MapOf(Pairs(dst))) - Live(Ids(sp, 0))
  {
    hide Live, Ascending;
    ghost var ids, m := Ids(sp, 0), MapOf(Pairs(dst));
    var i := 1;
    LiveNothing(ids[..0], {});
    assert m - {} == m;
    while i <= sp[0]
      invariant 1 <= i <= sp[0] + 1 && IsList2(dst) && Ascending(Pairs(dst))
      invariant MapOf(Pairs(dst)) == m - Live(ids[..i - 1])
    {
      var pn := sp[i];
      assert pn == ids[i - 1];
      LiveLess(ids, i - 1, m);
      if pn % 2 == 0 { RemoveOne(dst, pn / 2); }
      i := i + 1;
    }
    assert ids[..i - 1] == ids;
  }

  method RemoveOne(dst: array<Entry>, pn: nat)
    requires IsList2(dst) && Ascending(Pairs(dst))
    modifies dst
    ensures IsList2(dst) && Ascending(Pairs(dst)) && MapOf(Pairs(dst)) == old(MapOf(Pairs(dst))) - {pn}
  {
    hide Ascending, MapOf;
    ghost var s := Pairs(dst);
    AscendingRising(s);
    assert forall k :: 1 <= k <= |s| ==> dst[k] == s[k - 1];
    var y := Search2(dst, pn);
    if y <= dst[0].mid && dst[y].mid == pn {
      MapOfRemoved(s, y - 1);
      AscendingRemoved(s, y - 1);
      RemoveAt(dst, y);
    } else {
      forall k | 0 <= k < |s| ensures s[k].mid != pn { assert s[k] == dst[k + 1]; }
      NotAKey(s, pn);
      assert MapOf(s) - {pn} == MapOf(s);
    }
  }

  // ----- Joining the spill lists -----

  lemma {:induction false} EvenOnce(s: seq<nat>, v: nat)
    requires SpillOk(s) && v % 2 == 0
    ensures multiset(s)[v] == if v in s then 1 else 0
  {
    if s != [] {
      var front, last := s[..|s| - 1], s[|s| - 1];
      assert s == front + [last];
      SpillFront(front, last);
      EvenOnce(front, v);
      if v == last { assert v !in front; }
    }
  }

  /** The sorted union of two spill lists that share no live page. */
  lemma JoinedSpill(a: seq<nat>, b: seq<nat>, t: seq<nat>)
    requires SpillOk(a) && SpillOk(b) && Live(a) !! Live(b)
    requires Descending(t) && multiset(t) == multiset(a) + multiset(b)
    ensures SpillOk(t) && Live(t) == Live(a) + Live(b)
  {
    forall v ensures v in t <==> v in a || v in b { assert v in t <==> v in multiset(t); }
    forall p ensures p in Live(t) <==> p in Live(a) || p in Live(b) {
      LiveIs(t, p);
      LiveIs(a, p);
      LiveIs(b, p);
    }
    forall i, j | 0 <= i < j < |t| && t[i] == t[j] ensures t[i] % 2 == 1 { NoTwin(a, b, t, i, j); }
  }

  lemma NoTwin(a: seq<nat>, b: seq<nat>, t: seq<nat>, i: nat, j: nat)
    requires SpillOk(a) && SpillOk(b) && Live(a) !! Live(b) && multiset(t) == multiset(a) + multiset(b)
    requires i < j < |t| && t[i] == t[j]
    ensures t[i] % 2 == 1
  {
    hide SpillOk;
    if t[i] % 2 == 0 {
      TwiceCounted(t, i, j);
      AtMostOnce(a, b, t[i]);
    }
  }

  lemma AtMostOnce(a: seq<nat>, b: seq<nat>, v: nat)
    requires SpillOk(a) && SpillOk(b) && Live(a) !! Live(b) && v % 2 == 0
    ensures multiset(a)[v] + multiset(b)[v] <= 1
  {
    hide SpillOk;
    EvenOnce(a, v);
    EvenOnce(b, v);
    assert v in a ==> v / 2 in Live(a);
    assert v in b ==> v / 2 in Live(b);
  }

  /** mdb_midl_append_list and mdb_midl_sort. */
  method JoinSpill(sp: array<nat>, csp: array<nat>)
    requires sp != csp && IsList(sp, 0) && IsList(csp, 0) && sp[0] + csp[0] < sp.Length && sp[0] + csp[0] <= SORT_MAX
    requires SpillOk(Ids(sp, 0)) && SpillOk(Ids(csp, 0)) && Live(Ids(sp, 0)) !! Live(Ids(csp, 0))
    modifies sp
    ensures IsList(sp, 0) && SpillOk(Ids(sp, 0)) && Live(Ids(sp, 0)) == old(Live(Ids(sp, 0)) + Live(Ids(csp, 0)))
  {
    hide SpillOk, Live;
    ghost var a, b := Ids(sp, 0), Ids(csp, 0);
    var n := csp[0];
    Copy(sp, 1 + sp[0], csp, 1, n);
    sp[0] := sp[0] + n;
    assert Ids(sp, 0) == a + b;
    Sort(sp, 0);
    JoinedSpill(a, b, Ids(sp, 0));
  }

  // ----- mdb_txn_commit of a nested transaction -----

  /** The lists of a transaction in memory. */
  ghost predicate InMemory(t: NestedTxn.Txn, dl: array<Entry>, sp: array<nat>)
    reads dl, sp
  {
    && IsList2(dl) && Ascending(Pairs(dl)) && MapOf(Pairs(dl)) == t.dirty
    && IsList(sp, 0) && SpillOk(Ids(sp, 0)) && Live(Ids(sp, 0)) == t.spill
    && Small(Pairs(dl))
  }

  lemma {:induction false} MapSize(s: seq<Entry>)
    requires Ascending(s)
    ensures |MapOf(s)| == |s| && MapOf(s).Keys == IdsOf(s)
  {
    if s != [] {
      hide MapOf, Ascending, IdsOf;
      var front, e := s[..|s| - 1], s[|s| - 1];
      assert s == front + [e];
      AscendingFront(s);
      MapSize(front);
      KeysBelow(front, e.mid);
      MapOfLast(front, e);
      IdsOfLast(front, e);
      OneMore(MapOf(front), e.mid, e.ptr);
    }
  }

  lemma IdsOfLast(s: seq<Entry>, e: Entry)
    ensures IdsOf(s + [e]) == IdsOf(s) + {e.mid}
  {
    assert forall x :: x in s + [e] <==> x in s || x == e;
  }

  lemma OneMore(m: map<nat, int>, k: nat, v: int)
    requires k !in m
    ensures |m[k := v]| == |m| + 1 && m[k := v].Keys == m.Keys + {k}
  {
    assert |m[k := v].Keys| == |m.Keys + {k}|;
  }

  /** Join two dirty lists; `grand` is that the parent has a parent, otherwise the length comes from
    * mt_dirty_room. */
  method JoinDirty(dst: array<Entry>, src: array<Entry>, grand: bool, room: nat)
    requires dst != src && IsList2(dst) && IsList2(src) && Ascending(Pairs(dst)) && Ascending(Pairs(src))
    requires |MapOf(Pairs(dst)) + MapOf(Pairs(src))| < dst.Length
    requires !grand ==> |MapOf(Pairs(dst)) + MapOf(Pairs(src))| == UM_MAX - room
    modifies dst
    ensures IsList2(dst) && Ascending(Pairs(dst)) && MapOf(Pairs(dst)) == old(MapOf(Pairs(dst)) + MapOf(Pairs(src)))
    ensures IdsOf(Pairs(dst)) == old(IdsOf(Pairs(dst)) + IdsOf(Pairs(src)))
  {
    hide Ascending, MapOf, Merge, IdsOf;
    var x := dst[0].mid;
    ghost var d, s := Pairs(dst), Pairs(src);
    MergeOk(d, s);
    MapSize(Merge(d, s));
    MapSize(d);
    MapSize(s);
    dst[0] := dst[0].(mid := 0);
    assert Holds(dst[..], d, x);
    var len;
    if grand { len := MergedLen(dst, x, src, d); } else { len := UM_MAX - room; }
    MergeDirty(dst, x, src, len, d);
  }

  /** The lists of a nested transaction are merged into its parent's, and stand for what NestedTxn.Merged
    * says. */
  method CommitLists(dst: array<Entry>, sp: array<nat>, src: array<Entry>, csp: array<nat>, grand: bool, room: nat,
                     ghost parent: NestedTxn.Txn, ghost child: NestedTxn.Txn)
    requires dst != src && sp != csp && InMemory(parent, dst, sp) && InMemory(child, src, csp)
    requires sp[0] + csp[0] < sp.Length && sp[0] + csp[0] <= SORT_MAX && parent.spill !! child.spill
    requires |NestedTxn.Merged(parent, child).dirty| < dst.Length
    requires !grand ==> |NestedTxn.Merged(parent, child).dirty| == UM_MAX - room
    modifies dst, sp
    ensures InMemory(NestedTxn.Merged(parent, child), dst, sp)
  {
    hide Ascending, SpillOk, Live, MapOf, IdsOf, Small, Pairs, Ids;
    MapSize(Pairs(src));
    RemoveDirty(sp, src);
    assert InMemory(child, src, csp) && MapOf(Pairs(dst)) == parent.dirty;
    CommitDirty(dst, src, csp, grand, room, parent, child);
    assert Ids(csp, 0) == old(Ids(csp, 0));
    JoinSpill(sp, csp);
  }

  /** The part of it that concerns the dirty lists. */
  method CommitDirty(dst: array<Entry>, src: array<Entry>, csp: array<nat>, grand: bool, room: nat,
                     ghost parent: NestedTxn.Txn, ghost child: NestedTxn.Txn)
    requires dst != src && IsList2(dst) && Ascending(Pairs(dst)) && MapOf(Pairs(dst)) == parent.dirty && Small(Pairs(dst))
    requires InMemory(child, src, csp)
    requires |NestedTxn.Merged(parent, child).dirty| < dst.Length
    requires !grand ==> |NestedTxn.Merged(parent, child).dirty| == UM_MAX - room
    modifies dst
    ensures IsList2(dst) && Ascending(Pairs(dst)) && MapOf(Pairs(dst)) == NestedTxn.Merged(parent, child).dirty && Small(Pairs(dst))
  {
    hide Ascending, SpillOk, Live, MapOf, IdsOf, Pairs, Ids;
    MapSize(Pairs(src));
    MapSize(Pairs(dst));
    RemoveSpilled(dst, csp);
    MapSize(Pairs(dst));
    JoinDirty(dst, src, grand, room);
  }
}
