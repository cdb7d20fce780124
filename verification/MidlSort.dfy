/** mdb_midl_sort: quicksort with an explicit stack of int pairs and insertion sort for short segments. */
module MidlSort {
  import opened Midl

  // ----- Permutations of a segment -----

  /** t is s with the elements from l to r - 1 in another order. */
  ghost predicate PermIn(s: seq<nat>, t: seq<nat>, l: nat, r: nat) {
    && |s| == |t| && l <= r <= |s|
    && (forall x :: 0 <= x < l || r <= x < |s| ==> t[x] == s[x])
    && multiset(t[l..r]) == multiset(s[l..r])
  }

  lemma SwapPerm(s: seq<nat>, i: nat, j: nat, l: nat, r: nat)
    requires l <= i < r <= |s| && l <= j < r
    ensures PermIn(s, s[i := s[j]][j := s[i]], l, r)
  {
    var t := s[i := s[j]][j := s[i]];
    assert t[l..r] == s[l..r][i - l := s[l..r][j - l]][j - l := s[l..r][i - l]];
    assert s[l..r][i - l] == s[i] && s[l..r][j - l] == s[j];
  }

  lemma PermRefl(s: seq<nat>, l: nat, r: nat)
    requires l <= r <= |s|
    ensures PermIn(s, s, l, r)
  {
  }

  lemma PermTrans(s: seq<nat>, t: seq<nat>, u: seq<nat>, l: nat, r: nat)
    requires PermIn(s, t, l, r) && PermIn(t, u, l, r)
    ensures PermIn(s, u, l, r)
  {
  }

  lemma PermFrom(s: seq<nat>, t: seq<nat>, l: nat, r: nat, x: nat) returns (y: nat)
    requires PermIn(s, t, l, r) && l <= x < r
    ensures l <= y < r && t[x] == s[y]
  {
    assert t[x] == t[l..r][x - l] && t[x] in multiset(t[l..r]);
    assert t[x] in s[l..r];
    var i :| 0 <= i < r - l && s[l..r][i] == t[x];
    y := l + i;
  }

  lemma PermWider(s: seq<nat>, t: seq<nat>, l: nat, r: nat, l': nat, r': nat)
    requires PermIn(s, t, l, r) && l' <= l && r <= r' <= |s|
    ensures PermIn(s, t, l', r')
  {
    assert s[l'..r'] == s[l'..l] + s[l..r] + s[r..r'];
    assert t[l'..r'] == t[l'..l] + t[l..r] + t[r..r'];
    assert s[l'..l] == t[l'..l] && s[r..r'] == t[r..r'];
  }

  method Swap(a: array<nat>, i: nat, j: nat, ghost s0: seq<nat>, ghost l: nat, ghost r: nat)
    requires l <= i < r <= a.Length && l <= j < r && PermIn(s0, a[..], l, r)
    modifies a
    ensures a[i] == old(a[j]) && a[j] == old(a[i]) && (forall x :: 0 <= x < a.Length && x != i && x != j ==> a[x] == old(a[x]))
    ensures PermIn(s0, a[..], l, r)
  {
    SwapPerm(a[..], i, j, l, r);
    PermTrans(s0, a[..], a[..][i := a[j]][j := a[i]], l, r);
    ghost var t := a[..][i := a[j]][j := a[i]];
    a[i], a[j] := a[j], a[i];
    assert a[..] == t;
  }

  // ----- Pending segments -----

  datatype Seg = Seg(l: nat, ir: int)

  predicate Holds(g: Seg, x: int, y: int) { g.l <= x && y <= g.ir }

  predicate Same(segs: seq<Seg>, x: int, y: int) { exists q :: 0 <= q < |segs| && Holds(segs[q], x, y) }

  predicate Apart(g: Seg, h: Seg) { g.ir < h.l || h.ir < g.l }

  predicate Placed(segs: seq<Seg>, lo: nat, hi: nat) {
    && (forall q :: 0 <= q < |segs| ==> lo <= segs[q].l <= segs[q].ir + 1 <= hi)
    && (forall q, r :: 0 <= q < r < |segs| ==> Apart(segs[q], segs[r]))
  }

  /** Two elements out of order are in one of the segments still to be sorted. */
  ghost predicate Pending(s: seq<nat>, lo: nat, hi: nat, segs: seq<Seg>) {
    && hi <= |s| && Placed(segs, lo, hi)
    && (forall x, y :: lo <= x < y < hi && !Same(segs, x, y) ==> s[x] >= s[y])
  }

  lemma SameLast(segs: seq<Seg>, g: Seg, x: int, y: int)
    ensures Same(segs + [g], x, y) <==> Same(segs, x, y) || Holds(g, x, y)
  {
    var all := segs + [g];
    if Same(segs, x, y) {
      var q :| 0 <= q < |segs| && Holds(segs[q], x, y);
      assert Holds(all[q], x, y);
    }
    if Holds(g, x, y) { assert Holds(all[|segs|], x, y); }
  }

  /** A pair in a segment of the stack has no element in segment g, which is apart from it. */
  lemma NotInside(segs: seq<Seg>, g: Seg, lo: nat, hi: nat, x: int, y: int, z: int)
    requires Placed(segs + [g], lo, hi) && x < y && Same(segs, x, y) && g.l <= z <= g.ir
    ensures z != x && z != y
  {
    var q :| 0 <= q < |segs| && Holds(segs[q], x, y);
    assert (segs + [g])[q] == segs[q] && (segs + [g])[|segs|] == g;
  }

  lemma PlacedFront(segs: seq<Seg>, g: Seg, lo: nat, hi: nat)
    requires Placed(segs + [g], lo, hi)
    ensures Placed(segs, lo, hi)
  {
    assert forall q :: 0 <= q < |segs| ==> (segs + [g])[q] == segs[q];
  }

  /** After the elements of segment g have changed places, two elements not both in it are as far in
    * order as before. */
  lemma OutsideKept(s: seq<nat>, t: seq<nat>, lo: nat, hi: nat, segs: seq<Seg>, g: Seg, x: nat, y: nat)
    requires Pending(s, lo, hi, segs + [g]) && lo <= x < y < hi && !Same(segs, x, y) && !Holds(g, x, y)
    requires g.l <= g.ir && PermIn(s, t, g.l, g.ir + 1)
    ensures t[x] >= t[y]
  {
    var x', y' := x, y;
    if g.l <= x <= g.ir { x' := PermFrom(s, t, g.l, g.ir + 1, x); }
    if g.l <= y <= g.ir { y' := PermFrom(s, t, g.l, g.ir + 1, y); }
    assert (segs + [g])[|segs|] == g;
    SameLast(segs, g, x', y');
    if Same(segs, x', y') {
      if x != x' {
        NotInside(segs, g, lo, hi, x', y', x');
      } else if y != y' {
        NotInside(segs, g, lo, hi, x', y', y');
      }
    }
  }

  predicate SortedIn(s: seq<nat>, l: nat, r: int) { r <= |s| && forall x, y :: l <= x < y < r ==> s[x] >= s[y] }

  /** Segment g has been sorted. */
  lemma SegSorted(s: seq<nat>, t: seq<nat>, lo: nat, hi: nat, segs: seq<Seg>, g: Seg)
    requires Pending(s, lo, hi, segs + [g]) && g.l <= g.ir + 1 <= |s| && PermIn(s, t, g.l, g.ir + 1) && SortedIn(t, g.l, g.ir + 1)
    ensures Pending(t, lo, hi, segs)
  {
    PlacedFront(segs, g, lo, hi);
    forall x, y | lo <= x < y < hi && !Same(segs, x, y) ensures t[x] >= t[y] {
      if !Holds(g, x, y) {
        if g.l <= g.ir {
          OutsideKept(s, t, lo, hi, segs, g, x, y);
        } else {
          SameLast(segs, g, x, y);
        }
      }
    }
  }

  /** Segment l to ir has been cut: what is left of j is not below the pivot, what is right of i not above
    * it, and it stands between them. */
  ghost predicate Cut(t: seq<nat>, l: nat, j: int, i: int, ir: int, v: nat) {
    && l < j < i <= ir < |t|
    && (forall x :: l <= x < j ==> t[x] >= v)
    && (forall x :: j <= x < i ==> t[x] == v)
    && (forall x :: i <= x <= ir ==> t[x] <= v)
  }

  lemma PlacedCut(segs: seq<Seg>, g: Seg, lo: nat, hi: nat, b: Seg, c: Seg)
    requires Placed(segs + [g], lo, hi) && g.l <= b.l && b.ir <= g.ir && g.l <= c.l && c.ir <= g.ir && Apart(b, c)
    requires b.l <= b.ir && c.l <= c.ir
    ensures Placed(segs + [b] + [c], lo, hi)
  {
    var was, all := segs + [g], segs + [b] + [c];
    assert was[|segs|] == g;
    forall q | 0 <= q < |segs| ensures Apart(segs[q], b) && Apart(segs[q], c) && all[q] == was[q] { assert Apart(was[q], was[|segs|]); }
    forall q, r | 0 <= q < r < |all| ensures Apart(all[q], all[r]) {
      if r < |segs| { assert Apart(was[q], was[r]); }
    }
  }

  /** Its two parts take its place, in either order. */
  lemma SegCut(s: seq<nat>, t: seq<nat>, lo: nat, hi: nat, segs: seq<Seg>, g: Seg, j: int, i: int, v: nat, b: Seg, c: Seg)
    requires Pending(s, lo, hi, segs + [g]) && g.l <= g.ir && PermIn(s, t, g.l, g.ir + 1) && Cut(t, g.l, j, i, g.ir, v)
    requires (b == Seg(i, g.ir) && c == Seg(g.l, j - 1)) || (c == Seg(i, g.ir) && b == Seg(g.l, j - 1))
    ensures Pending(t, lo, hi, segs + [b] + [c])
  {
    PlacedCut(segs, g, lo, hi, b, c);
    forall x, y | lo <= x < y < hi && !Same(segs + [b] + [c], x, y) ensures t[x] >= t[y] {
      SameLast(segs + [b], c, x, y);
      SameLast(segs, b, x, y);
      if !Holds(g, x, y) { OutsideKept(s, t, lo, hi, segs, g, x, y); }
    }
  }

  // ----- Insertion sort -----

  /** One element is carried down to its place; the scan may go down to the start of the list, but the
    * elements before l stop it. */
  method Insert(a: array<nat>, lo: nat, l: nat, j: nat)
    requires lo <= l < j < a.Length && SortedIn(a[..], l, j) && (l > lo ==> a[l - 1] >= a[j])
    modifies a
    ensures SortedIn(a[..], l, j + 1) && PermIn(old(a[..]), a[..], l, j + 1)
  {
    hide SortedIn, PermIn;
    ghost var s0 := a[..];
    var v := a[j];
    var i: int := j - 1;
    while i >= lo
      invariant l - 1 <= i < j
      invariant forall x :: 0 <= x < l || j < x < a.Length ==> a[x] == s0[x]
      invariant forall x :: l <= x <= i ==> a[x] == s0[x]
      invariant forall x :: i + 1 < x <= j ==> a[x] == s0[x - 1] && a[x] < v
    {
      if a[i] >= v { break; }
      a[i + 1] := a[i];
      i := i - 1;
    }
    a[i + 1] := v;
    Rotated(s0, a[..], l, i + 1, j);
    RotatedSorted(s0, a[..], l, i + 1, j);
  }

  lemma RotatedSorted(s: seq<nat>, t: seq<nat>, l: nat, i: nat, j: nat)
    requires l <= i <= j < |s| == |t| && SortedIn(s, l, j) && t[i] == s[j] && (i > l ==> s[i - 1] >= t[i])
    requires forall x :: l <= x < i ==> t[x] == s[x]
    requires forall x :: i < x <= j ==> t[x] == s[x - 1] && t[x] < t[i]
    ensures SortedIn(t, l, j + 1)
  {
  }

  /** t is s with element j moved down to place i. */
  lemma Rotated(s: seq<nat>, t: seq<nat>, l: nat, i: nat, j: nat)
    requires l <= i <= j < |s| == |t| && t[i] == s[j]
    requires forall x :: 0 <= x < i || j < x < |s| ==> t[x] == s[x]
    requires forall x :: i < x <= j ==> t[x] == s[x - 1]
    ensures PermIn(s, t, l, j + 1)
  {
    assert t[l..j + 1] == s[l..i] + [s[j]] + s[i..j];
    assert s[l..j + 1] == s[l..i] + s[i..j] + [s[j]];
  }

  method InsertionSort(a: array<nat>, lo: nat, l: nat, ir: int)
    requires lo <= l && -1 <= ir < a.Length && l <= ir + 1
    requires l > lo ==> forall x :: l <= x <= ir ==> a[l - 1] >= a[x]
    modifies a
    ensures SortedIn(a[..], l, ir + 1) && PermIn(old(a[..]), a[..], l, ir + 1)
  {
    hide SortedIn, PermIn;
    var j := l + 1;
    ghost var s0 := a[..];
    Unsorted(s0, l, ir);
    while j <= ir
      invariant l + 1 <= j && (j <= ir + 1 || (j == l + 1 && ir < l))
      invariant PermIn(s0, a[..], l, ir + 1)
      invariant SortedIn(a[..], l, if j <= ir + 1 then j else ir + 1)
    {
      if l > lo { BoundKept(s0, a[..], l, ir + 1, j); }
      ghost var was := a[..];
      Insert(a, lo, l, j);
      PermStep(s0, was, a[..], l, j + 1, ir + 1);
      j := j + 1;
    }
  }

  lemma PermStep(s: seq<nat>, t: seq<nat>, u: seq<nat>, l: nat, r: nat, r': nat)
    requires PermIn(s, t, l, r') && PermIn(t, u, l, r) && r <= r' <= |s|
    ensures PermIn(s, u, l, r')
  {
    hide PermIn;
    PermLength(s, t, l, r');
    PermWider(t, u, l, r, l, r');
    PermTrans(s, t, u, l, r');
  }

  lemma PermLength(s: seq<nat>, t: seq<nat>, l: nat, r: nat)
    requires PermIn(s, t, l, r)
    ensures |s| == |t| && l <= r <= |s|
  {
  }

  lemma Unsorted(s: seq<nat>, l: nat, ir: int)
    requires -1 <= ir < |s| && l <= ir + 1
    ensures PermIn(s, s, l, ir + 1) && SortedIn(s, l, if l <= ir then l + 1 else ir + 1)
  {
  }

  /** The element before a segment bounds it whatever the order inside. */
  lemma BoundKept(s: seq<nat>, t: seq<nat>, l: nat, r: nat, j: nat)
    requires PermIn(s, t, l, r) && 0 < l <= j < r && forall x :: l <= x < r ==> s[l - 1] >= s[x]
    ensures t[l - 1] >= t[j]
  {
    var y := PermFrom(s, t, l, r, j);
  }

  // ----- Partitioning -----

  /** In the course of a partition: elements up to i are not below the pivot, those from j on not above. */
  ghost predicate Parting(s: seq<nat>, l: nat, i: nat, j: nat, ir: nat, v: nat) {
    && l < i <= j <= ir < |s| && l + 1 < ir && s[l + 1] == v
    && ((i == l + 1 && j == ir) || (l + 1 < i && j < ir))
    && (forall x :: l <= x <= i ==> s[x] >= v)
    && (forall x :: j <= x <= ir ==> s[x] <= v)
  }

  /** Median of three: the first, second and last element are in order. */
  method Median(a: array<nat>, l: nat, ir: nat)
    requires l + 8 <= ir < a.Length
    modifies a
    ensures PermIn(old(a[..]), a[..], l, ir + 1) && a[l] >= a[l + 1] >= a[ir]
  {
    hide PermIn;
    ghost var s0 := a[..];
    PermRefl(s0, l, ir + 1);
    var k := (l + ir) / 2;
    Swap(a, k, l + 1, s0, l, ir + 1);
    Order(a, l, ir, s0, l, ir + 1);
    Order(a, l + 1, ir, s0, l, ir + 1);
    Order(a, l, l + 1, s0, l, ir + 1);
  }

  method Order(a: array<nat>, i: nat, j: nat, ghost s0: seq<nat>, ghost l: nat, ghost r: nat)
    requires l <= i < r <= a.Length && l <= j < r && PermIn(s0, a[..], l, r)
    modifies a
    ensures a[i] >= a[j] && {a[i], a[j]} == {old(a[i]), old(a[j])} && PermIn(s0, a[..], l, r)
    ensures forall x :: 0 <= x < a.Length && x != i && x != j ==> a[x] == old(a[x])
  {
    hide PermIn;
    if a[i] < a[j] { Swap(a, i, j, s0, l, r); }
  }

  /** The scan up for an element not above the pivot: the one at `stop` ends it. */
  method ScanUp(a: array<nat>, i0: nat, ghost stop: nat, v: nat) returns (i: nat)
    requires i0 < stop < a.Length && a[stop] <= v
    ensures i0 < i <= stop && a[i] <= v && forall x :: i0 < x < i ==> a[x] > v
  {
    i := i0 + 1;
    while a[i] > v
      invariant i0 < i <= stop && forall x :: i0 < x < i ==> a[x] > v
      decreases stop - i
    {
      i := i + 1;
    }
  }

  /** The scan down for an element not below the pivot: the one at `stop` ends it. */
  method ScanDown(a: array<nat>, j0: nat, ghost stop: nat, v: nat) returns (j: nat)
    requires stop < j0 <= a.Length && a[stop] >= v
    ensures stop <= j < j0 && a[j] >= v && forall x :: j < x < j0 ==> a[x] < v
  {
    j := j0 - 1;
    while a[j] < v
      invariant stop <= j < j0 && forall x :: j < x < j0 ==> a[x] < v
      decreases j
    {
      j := j - 1;
    }
  }

  /** The two scans never leave the segment: each has an element before it that stops it. */
  method Partition(a: array<nat>, l: nat, ir: nat) returns (i: nat, j: nat, ghost v: nat)
    requires l + 8 <= ir < a.Length
    modifies a
    ensures PermIn(old(a[..]), a[..], l, ir + 1) && Cut(a[..], l, j, i, ir, v)
  {
    hide PermIn;
    ghost var s0 := a[..];
    Median(a, l, ir);
    i, j := l + 1, ir;
    var pivot := a[l + 1];
    v := pivot;
    while true
      invariant PermIn(s0, a[..], l, ir + 1) && Parting(a[..], l, i, j, ir, pivot)
      decreases j
    {
      ghost var up, down := if i < j then j else j + 1, if i < j then i else i - 1;
      i := ScanUp(a, i, up, pivot);
      j := ScanDown(a, j, down, pivot);
      if j < i { break; }
      Swap(a, i, j, s0, l, ir + 1);
    }
    Swap(a, l + 1, j, s0, l, ir + 1);
  }

  // ----- The stack -----

  function Size(g: Seg): nat { if g.l <= g.ir then g.ir - g.l + 1 else 0 }

  function Total(segs: seq<Seg>): nat {
    if segs == [] then 0 else Total(segs[..|segs| - 1]) + Size(segs[|segs| - 1])
  }

  lemma TotalLast(segs: seq<Seg>, g: Seg)
    ensures Total(segs + [g]) == Total(segs) + Size(g)
  {
    assert (segs + [g])[..|segs|] == segs;
  }

  function Pow2(d: nat): nat { if d == 0 then 1 else 2 * Pow2(d - 1) }

  lemma {:induction false} Pow2Grows(d: nat, e: nat)
    requires d <= e
    ensures Pow2(d) <= Pow2(e)
    decreases e
  {
    if d < e { Pow2Grows(d, e - 1); }
  }

  /** Level q of the stack was left when the segment at work was twice as large at least. */
  ghost predicate Shrinking(segs: seq<Seg>, n: nat) {
    forall q {:trigger segs[q]} :: 0 <= q < |segs| ==> AtDepth(Size(segs[q]), q, n)
  }

  predicate AtDepth(size: nat, d: nat, n: nat) { size * Pow2(d) <= n }

  lemma ShrinkingLast(segs: seq<Seg>, g: Seg, n: nat)
    ensures Shrinking(segs + [g], n) <==> Shrinking(segs, n) && AtDepth(Size(g), |segs|, n)
  {
    hide AtDepth;
    assert (segs + [g])[|segs|] == g;
    assert forall q :: 0 <= q < |segs| ==> (segs + [g])[q] == segs[q];
  }

  lemma TimesUp(a: nat, b: nat, c: nat)
    requires a <= b
    ensures a * c <= b * c
  {
  }

  lemma Pow2Of27()
    ensures Pow2(27) == 0x800_0000
  {
    assert Pow2(9) == 512;
    assert Pow2(18) == 0x4_0000;
  }

  /** A segment long enough to be cut lies at a depth below 27. */
  lemma DepthBound(d: nat, size: nat, n: nat)
    requires size >= 9 && AtDepth(size, d, n) && n <= SORT_MAX
    ensures d < 27
  {
    if d >= 27 {
      Pow2Of27();
      Pow2Grows(27, d);
      TimesUp(9, size, Pow2(d));
      assert false;
    }
  }

  /** Going on with the smaller part halves the size. */
  lemma HalvedSize(big: nat, small: nat, size: nat, d: nat, n: nat)
    requires small <= big && big + small < size && AtDepth(size, d, n)
    ensures AtDepth(big, d, n) && AtDepth(small, d + 1, n)
  {
    TimesUp(big, size, Pow2(d));
    TimesUp(2 * small, size, Pow2(d));
    Doubled(small, Pow2(d));
  }

  lemma Doubled(a: nat, b: nat)
    ensures a * (2 * b) == (2 * a) * b
  {
  }

  /** The int stack holds the segments, two entries each, from index 1 up. */
  ghost predicate Stacked(st: seq<int>, segs: seq<Seg>) {
    |st| == STACK && 2 * |segs| < STACK &&
    forall q :: 0 <= q < |segs| ==> st[2 * q + 1] == segs[q].l && st[2 * q + 2] == segs[q].ir
  }

  /** Everything the main loop keeps. */
  ghost predicate Sorting(s0: seq<nat>, s: seq<nat>, lo: nat, hi: nat, segs: seq<Seg>, g: Seg, st: seq<int>) {
    && lo <= hi <= |s0| && PermIn(s0, s, lo, hi)
    && Pending(s, lo, hi, segs + [g]) && Shrinking(segs + [g], hi - lo) && Stacked(st, segs)
    && lo <= g.l <= g.ir + 1 <= hi
  }

  lemma SortBegins(s: seq<nat>, lo: nat, hi: nat, st: seq<int>)
    requires lo <= hi <= |s| && |st| == STACK
    ensures Sorting(s, s, lo, hi, [], Seg(lo, hi - 1), st)
  {
    var g := Seg(lo, hi - 1);
    assert [] + [g] == [g];
    forall x, y | lo <= x < y < hi ensures Same([g], x, y) { assert Holds([g][0], x, y); }
  }

  /** The elements before the segment at work bound it. */
  lemma BoundBelow(s: seq<nat>, lo: nat, hi: nat, segs: seq<Seg>, g: Seg)
    requires Pending(s, lo, hi, segs + [g]) && lo < g.l && g.ir < hi
    ensures forall x :: g.l <= x <= g.ir ==> s[g.l - 1] >= s[x]
  {
    forall x | g.l <= x <= g.ir ensures s[g.l - 1] >= s[x] {
      SameLast(segs, g, g.l - 1, x);
      if Same(segs, g.l - 1, x) { NotInside(segs, g, lo, hi, g.l - 1, x, x); }
    }
  }

  lemma PermInto(s0: seq<nat>, s: seq<nat>, t: seq<nat>, lo: nat, hi: nat, g: Seg)
    requires PermIn(s0, s, lo, hi) && lo <= g.l <= g.ir + 1 <= hi && PermIn(s, t, g.l, g.ir + 1)
    ensures PermIn(s0, t, lo, hi)
  {
    hide PermIn;
    PermLength(s0, s, lo, hi);
    PermWider(s, t, g.l, g.ir + 1, lo, hi);
    PermTrans(s0, s, t, lo, hi);
  }

  lemma PendingOpen(s: seq<nat>, lo: nat, hi: nat, segs: seq<Seg>, g: Seg)
    requires Pending(s, lo, hi, segs + [g])
    ensures lo <= g.l <= g.ir + 1 <= hi <= |s|
  {
    assert (segs + [g])[|segs|] == g;
  }

  /** A sorted segment is popped. */
  lemma SortPop(s0: seq<nat>, s: seq<nat>, t: seq<nat>, lo: nat, hi: nat, segs: seq<Seg>, g: Seg, h: Seg, st: seq<int>)
    requires Sorting(s0, s, lo, hi, segs + [h], g, st) && PermIn(s, t, g.l, g.ir + 1) && SortedIn(t, g.l, g.ir + 1)
    ensures Sorting(s0, t, lo, hi, segs, h, st)
    ensures |st| == STACK && 2 * |segs| + 2 < STACK && st[2 * |segs| + 1] == h.l && st[2 * |segs| + 2] == h.ir
    ensures Total(segs + [h]) <= Total(segs + [h] + [g])
  {
    hide PermIn, Pending, Shrinking, SortedIn, Total;
    PermInto(s0, s, t, lo, hi, g);
    PermLength(s0, s, lo, hi);
    SegSorted(s, t, lo, hi, segs + [h], g);
    PendingOpen(t, lo, hi, segs, h);
    ShrinkingLast(segs + [h], g, hi - lo);
    TotalLast(segs + [h], g);
    assert (segs + [h])[|segs|] == h;
    assert forall q :: 0 <= q < |segs| ==> (segs + [h])[q] == segs[q];
  }

  lemma SortEnds(s0: seq<nat>, s: seq<nat>, t: seq<nat>, lo: nat, hi: nat, g: Seg, st: seq<int>)
    requires Sorting(s0, s, lo, hi, [], g, st) && PermIn(s, t, g.l, g.ir + 1) && SortedIn(t, g.l, g.ir + 1)
    ensures PermIn(s0, t, lo, hi) && SortedIn(t, lo, hi)
  {
    PermInto(s0, s, t, lo, hi, g);
    assert [] + [g] == [g];
    SegSorted(s, t, lo, hi, [], g);
  }

  /** A segment is cut: the larger part is pushed, the smaller one is worked on. */
  lemma SortCut(s0: seq<nat>, s: seq<nat>, t: seq<nat>, lo: nat, hi: nat, segs: seq<Seg>, g: Seg, st: seq<int>,
                j: int, i: int, v: nat, b: Seg, c: Seg, st': seq<int>)
    requires Sorting(s0, s, lo, hi, segs, g, st) && g.l + 8 <= g.ir && hi - lo <= SORT_MAX
    requires PermIn(s, t, g.l, g.ir + 1) && Cut(t, g.l, j, i, g.ir, v) && Size(c) <= Size(b)
    requires (b == Seg(i, g.ir) && c == Seg(g.l, j - 1)) || (c == Seg(i, g.ir) && b == Seg(g.l, j - 1))
    requires 2 * |segs| + 2 < STACK && st' == st[2 * |segs| + 1 := b.l][2 * |segs| + 2 := b.ir]
    ensures Sorting(s0, t, lo, hi, segs + [b], c, st')
    ensures Total(segs + [b] + [c]) < Total(segs + [g])
  {
    hide PermIn, Pending, Shrinking, Total;
    PermInto(s0, s, t, lo, hi, g);
    SegCut(s, t, lo, hi, segs, g, j, i, v, b, c);
    ShrinkingLast(segs, g, hi - lo);
    HalvedSize(Size(b), Size(c), Size(g), |segs|, hi - lo);
    ShrinkingLast(segs, b, hi - lo);
    ShrinkingLast(segs + [b], c, hi - lo);
    TotalLast(segs, g);
    TotalLast(segs, b);
    TotalLast(segs + [b], c);
    StackPush(st, segs, b, st');
  }

  lemma StackPush(st: seq<int>, segs: seq<Seg>, b: Seg, st': seq<int>)
    requires Stacked(st, segs) && 2 * |segs| + 2 < STACK && st' == st[2 * |segs| + 1 := b.l][2 * |segs| + 2 := b.ir]
    ensures Stacked(st', segs + [b])
  {
  }

  lemma SortDepth(s0: seq<nat>, s: seq<nat>, lo: nat, hi: nat, segs: seq<Seg>, g: Seg, st: seq<int>)
    requires Sorting(s0, s, lo, hi, segs, g, st) && g.l + 8 <= g.ir && hi - lo <= SORT_MAX
    ensures |segs| < 27
  {
    ShrinkingLast(segs, g, hi - lo);
    DepthBound(|segs|, Size(g), hi - lo);
  }

  // ----- mdb_midl_sort -----

  /** Cut the segment at work, push its larger part and go on with the smaller one. */
  method CutSegment(a: array<nat>, istack: array<int>, top: nat, l: nat, ir: int,
                    ghost s0: seq<nat>, ghost lo: nat, ghost hi: nat, ghost segs: seq<Seg>)
    returns (l': nat, ir': int, ghost b: Seg)
    requires top == 2 * |segs| && l + 8 <= ir && hi - lo <= SORT_MAX && istack.Length == STACK
    requires Sorting(s0, a[..], lo, hi, segs, Seg(l, ir), istack[..])
    modifies a, istack
    ensures Sorting(s0, a[..], lo, hi, segs + [b], Seg(l', ir'), istack[..])
    ensures Total(segs + [b] + [Seg(l', ir')]) < Total(segs + [Seg(l, ir)])
  {
    hide PermIn, Pending, Shrinking, Sorting, Cut, Total, Stacked;
    ghost var was, g, st := a[..], Seg(l, ir), istack[..];
    SortOpen(s0, was, lo, hi, segs, g, st);
    SortDepth(s0, was, lo, hi, segs, g, st);
    var i, j, v := Partition(a, l, ir);
    CutBounds(a[..], l, j, i, ir, v);
    var jstack := top + 2;
    if ir - i + 1 >= j - l {
      istack[jstack] := ir;
      istack[jstack - 1] := i;
      l', ir', b := l, j - 1, Seg(i, ir);
    } else {
      istack[jstack] := j - 1;
      istack[jstack - 1] := l;
      l', ir', b := i, ir, Seg(l, j - 1);
    }
    SortCut(s0, was, a[..], lo, hi, segs, g, st, j, i, v, b, Seg(l', ir'), istack[..]);
  }

  /** The list becomes a descending permutation of itself, and the stack of 64 ints never runs over. */
  method Sort(a: array<nat>, p: nat)
    requires IsList(a, p) && a[p] <= SORT_MAX
    modifies a
    ensures a[p] == old(a[p]) && IsList(a, p) && Descending(Ids(a, p))
    ensures multiset(Ids(a, p)) == multiset(old(Ids(a, p)))
    ensures forall x :: 0 <= x < a.Length && !(p < x <= p + a[p]) ==> a[x] == old(a[x])
  {
    hide PermIn, SortedIn;
    ghost var s0 := a[..];
    SortFrom(a, p + 1, p + a[p]);
    PermDone(s0, a[..], p + 1, p + 1 + s0[p]);
  }

  method SortFrom(a: array<nat>, lo: nat, last: nat)
    requires 0 < lo <= last + 1 <= a.Length && last + 1 - lo <= SORT_MAX
    modifies a
    ensures PermIn(old(a[..]), a[..], lo, last + 1) && SortedIn(a[..], lo, last + 1)
  {
    hide PermIn, Pending, Shrinking, Sorting, SortedIn, Cut, Total, Stacked;
    ghost var s0, hi := a[..], last + 1;
    var istack := new int[STACK];
    var l: nat, ir: int, jstack := lo, last, 0;
    ghost var segs: seq<Seg> := [];
    SortBegins(s0, lo, hi, istack[..]);
    while true
      invariant jstack == 2 * |segs| && istack.Length == STACK
      invariant Sorting(s0, a[..], lo, hi, segs, Seg(l, ir), istack[..])
      decreases Total(segs + [Seg(l, ir)]), |segs|
    {
      ghost var was, g := a[..], Seg(l, ir);
      SortOpen(s0, was, lo, hi, segs, g, istack[..]);
      if ir - l < SMALL {
        if l > lo { BoundBelow(was, lo, hi, segs, g); }
        InsertionSort(a, lo, l, ir);
        if jstack == 0 {
          SortEnds(s0, was, a[..], lo, hi, g, istack[..]);
          break;
        }
        ghost var h := segs[|segs| - 1];
        assert segs == segs[..|segs| - 1] + [h];
        segs := segs[..|segs| - 1];
        SortPop(s0, was, a[..], lo, hi, segs, g, h, istack[..]);
        ir := istack[jstack];
        l := istack[jstack - 1];
        jstack := jstack - 2;
      } else {
        ghost var b;
        l, ir, b := CutSegment(a, istack, jstack, l, ir, s0, lo, hi, segs);
        jstack := jstack + 2;
        segs := segs + [b];
      }
    }
  }

  lemma PermDone(s: seq<nat>, t: seq<nat>, lo: nat, hi: nat)
    requires PermIn(s, t, lo, hi) && SortedIn(t, lo, hi)
    ensures Descending(t[lo..hi]) && multiset(t[lo..hi]) == multiset(s[lo..hi])
    ensures |s| == |t| && forall x :: 0 <= x < |s| && !(lo <= x < hi) ==> t[x] == s[x]
  {
  }

  lemma CutBounds(t: seq<nat>, l: int, j: int, i: int, ir: int, v: nat)
    requires l >= 0 && Cut(t, l, j, i, ir, v)
    ensures l < j < i <= ir < |t|
  {
  }

  lemma SortOpen(s0: seq<nat>, s: seq<nat>, lo: nat, hi: nat, segs: seq<Seg>, g: Seg, st: seq<int>)
    requires Sorting(s0, s, lo, hi, segs, g, st)
    ensures lo <= g.l <= g.ir + 1 <= hi <= |s| && Pending(s, lo, hi, segs + [g])
  {
  }
}
