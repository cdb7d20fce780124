/** Pages as bytes: an array of pointers grows up, nodes grow down and fill the page exactly from mp_upper
  * to its end. */
module SlottedPage {

  type byte = n: nat | n < 256

  const PAGEHDRSZ := 16
  const NODESIZE := 8

  function Even(n: nat): (r: nat)
    ensures n <= r <= n + 1 && r % 2 == 0
  { (n + 1) / 2 * 2 }

  function U16(m: seq<byte>, o: nat): nat
    requires o + 2 <= |m|
  { m[o] as nat + 256 * (m[o + 1] as nat) }

  function Bytes16(x: nat): (s: seq<byte>)
    requires x < 0x1_0000
    ensures |s| == 2 && U16(s, 0) == x
  { [x % 256, x / 256] }

  /** The length of a node: header, key, and in a leaf its data or the number of an overflow page
    * (F_BIGDATA is 1). */
  function NodeLen(m: seq<byte>, o: nat, leaf: bool): nat
    requires o + NODESIZE <= |m|
  {
    NODESIZE + U16(m, o + 6) +
      (if !leaf then 0 else if U16(m, o + 4) % 2 == 1 then 8 else U16(m, o) + 0x1_0000 * U16(m, o + 2))
  }

  function NodeSize(m: seq<byte>, o: nat, leaf: bool): nat
    requires o + NODESIZE <= |m|
  { Even(NodeLen(m, o, leaf)) }

  /** The same bytes are the same node. */
  lemma SameNode(m: seq<byte>, o: nat, m': seq<byte>, o': nat, leaf: bool)
    requires o + NODESIZE <= |m| && o' + NODESIZE <= |m'| && m'[o'..o' + NODESIZE] == m[o..o + NODESIZE]
    ensures NodeLen(m', o', leaf) == NodeLen(m, o, leaf)
  {
    var h, h' := m[o..o + NODESIZE], m'[o'..o' + NODESIZE];
    assert forall k :: 0 <= k < NODESIZE ==> h[k] == m[o + k];
    assert forall k :: 0 <= k < NODESIZE ==> h'[k] == m'[o' + k];
    HeaderLen(m, o, h, leaf);
    HeaderLen(m', o', h', leaf);
  }

  lemma HeaderLen(m: seq<byte>, o: nat, h: seq<byte>, leaf: bool)
    requires o + NODESIZE <= |m| && h == m[o..o + NODESIZE]
    ensures NodeLen(m, o, leaf) == NodeLen(h, 0, leaf)
  {
    assert h[0] == m[o] && h[1] == m[o + 1] && h[2] == m[o + 2] && h[3] == m[o + 3];
    assert h[4] == m[o + 4] && h[5] == m[o + 5] && h[6] == m[o + 6] && h[7] == m[o + 7];
  }

  // ----- Sums -----

  function Sum(s: seq<nat>): nat { if s == [] then 0 else Sum(s[..|s| - 1]) + s[|s| - 1] }

  lemma {:induction false} SumConcat(a: seq<nat>, b: seq<nat>)
    ensures Sum(a + b) == Sum(a) + Sum(b)
  {
    if b == [] {
      assert a + b == a;
    } else {
      assert (a + b)[..|a + b| - 1] == a + b[..|b| - 1];
      SumConcat(a, b[..|b| - 1]);
    }
  }

  lemma SumInsert(s: seq<nat>, i: nat, x: nat)
    requires i <= |s|
    ensures Sum(s[..i] + [x] + s[i..]) == Sum(s) + x
  {
    SumConcat(s[..i] + [x], s[i..]);
    SumConcat(s[..i], [x]);
    SumConcat(s[..i], s[i..]);
    assert s == s[..i] + s[i..];
    assert Sum([x]) == Sum([]) + x;
  }

  // ----- Tiling -----

  function Sizes(m: seq<byte>, ps: seq<nat>, leaf: bool): (s: seq<nat>)
    requires Headers(m, ps)
    ensures |s| == |ps| && forall i :: 0 <= i < |ps| ==> s[i] == NodeSize(m, ps[i], leaf)
  { seq(|ps|, i requires 0 <= i < |ps| => NodeSize(m, ps[i], leaf)) }

  predicate Headers(m: seq<byte>, ps: seq<nat>) { forall i :: 0 <= i < |ps| ==> ps[i] + NODESIZE <= |m| }

  predicate Disjoint(o: nat, n: nat, o': nat, n': nat) { o + n <= o' || o' + n' <= o }

  predicate IsEven(x: int) { x % 2 == 0 }

  lemma EvenAdd(a: int, b: int)
    requires IsEven(a) && IsEven(b)
    ensures IsEven(a + b) && IsEven(a - b)
  {
  }

  predicate Fits(o: int, n: int, upper: int, end: int) { upper <= o && o + n <= end && n > 0 && IsEven(o) && IsEven(n) }

  predicate AllFit(ps: seq<nat>, sizes: seq<nat>, upper: nat, end: nat)
    requires |ps| == |sizes|
  { forall i :: 0 <= i < |ps| ==> Fits(ps[i], sizes[i], upper, end) }

  predicate AllApart(ps: seq<nat>, sizes: seq<nat>)
    requires |ps| == |sizes|
  { forall i, j :: 0 <= i < j < |ps| ==> Disjoint(ps[i], sizes[i], ps[j], sizes[j]) }

  /** Extents lie apart between `upper` and the end of the page, at even places, and leave no gap. */
  predicate Layout(ps: seq<nat>, sizes: seq<nat>, upper: nat, end: nat) {
    && |ps| == |sizes| && upper <= end && IsEven(upper)
    && AllFit(ps, sizes, upper, end) && AllApart(ps, sizes) && Sum(sizes) == end - upper
  }

  predicate Tiled(m: seq<byte>, ps: seq<nat>, upper: nat, leaf: bool) {
    Headers(m, ps) && upper <= |m| && Layout(ps, Sizes(m, ps, leaf), upper, |m|)
  }

  function NodeBytes(m: seq<byte>, o: nat, leaf: bool): seq<byte>
    requires o + NODESIZE <= |m|
  { if o + NodeLen(m, o, leaf) <= |m| then m[o..o + NodeLen(m, o, leaf)] else [] }

  /** The bytes of each node. */
  function View(m: seq<byte>, ps: seq<nat>, leaf: bool): (v: seq<seq<byte>>)
    requires Headers(m, ps)
    ensures |v| == |ps| && forall i :: 0 <= i < |ps| ==> v[i] == NodeBytes(m, ps[i], leaf)
  { seq(|ps|, i requires 0 <= i < |ps| => NodeBytes(m, ps[i], leaf)) }

  function Insert<T>(s: seq<T>, i: nat, x: T): seq<T>
    requires i <= |s|
  { s[..i] + [x] + s[i..] }

  function Remove<T>(s: seq<T>, i: nat): seq<T>
    requires i < |s|
  { s[..i] + s[i + 1..] }

  lemma InsertAt<T>(s: seq<T>, i: nat, x: T, t: seq<T>)
    requires i <= |s| && t == Insert(s, i, x)
    ensures |t| == |s| + 1 && t[i] == x
    ensures forall k :: 0 <= k < i ==> t[k] == s[k]
    ensures forall k :: i < k < |t| ==> t[k] == s[k - 1]
  {
  }

  lemma RemoveAt<T>(s: seq<T>, i: nat, t: seq<T>)
    requires i < |s| && t == Remove(s, i)
    ensures |t| == |s| - 1
    ensures forall k :: 0 <= k < i ==> t[k] == s[k]
    ensures forall k :: i <= k < |t| ==> t[k] == s[k + 1]
  {
  }

  // ----- Layouts -----

  lemma LayoutInsert(ps: seq<nat>, sizes: seq<nat>, upper: nat, end: nat, i: nat, ofs: nat)
    requires Layout(ps, sizes, upper, end) && i <= |ps| && ofs < upper && IsEven(ofs)
    ensures Layout(Insert<nat>(ps, i, ofs), Insert<nat>(sizes, i, upper - ofs), ofs, end)
  {
    hide IsEven, Insert, Sum;
    var ps', sizes' := Insert<nat>(ps, i, ofs), Insert<nat>(sizes, i, upper - ofs);
    InsertAt<nat>(ps, i, ofs, ps');
    InsertAt<nat>(sizes, i, upper - ofs, sizes');
    SumInserted(sizes, i, upper - ofs, sizes');
    EvenAdd(upper, ofs);
    forall k | 0 <= k < |ps'| ensures Fits(ps'[k], sizes'[k], ofs, end) {
      if k != i { assert Fits(ps[if k < i then k else k - 1], sizes[if k < i then k else k - 1], upper, end); }
    }
    forall k, l | 0 <= k < l < |ps'| ensures Disjoint(ps'[k], sizes'[k], ps'[l], sizes'[l]) {
      if k != i && l != i {
        PairApart(ps, sizes, if k < i then k else k - 1, if l < i then l else l - 1);
      } else {
        var o := if k == i then l else k;
        assert Fits(ps[if o < i then o else o - 1], sizes[if o < i then o else o - 1], upper, end);
      }
    }
  }

  lemma SumInserted(s: seq<nat>, i: nat, x: nat, t: seq<nat>)
    requires i <= |s| && t == Insert<nat>(s, i, x)
    ensures Sum(t) == Sum(s) + x
  {
    SumInsert(s, i, x);
  }

  lemma RemoveInsert(s: seq<nat>, i: nat, x: nat)
    requires i < |s|
    ensures Insert(Remove(s, i), i, x) == s[i := x] && s[i := s[i]] == s
  {
  }

  lemma SumRemove(s: seq<nat>, i: nat)
    requires i < |s|
    ensures Sum(Remove(s, i)) == Sum(s) - s[i]
  {
    hide Sum, Remove, Insert;
    RemoveAt(s, i, Remove(s, i));
    SumInserted(Remove(s, i), i, s[i], Insert(Remove(s, i), i, s[i]));
    RemoveInsert(s, i, s[i]);
  }

  lemma SumUpdate(s: seq<nat>, i: nat, x: nat)
    requires i < |s|
    ensures Sum(s[i := x]) == Sum(s) - s[i] + x
  {
    hide Sum, Remove, Insert;
    RemoveAt(s, i, Remove(s, i));
    SumRemove(s, i);
    SumInserted(Remove(s, i), i, x, Insert(Remove(s, i), i, x));
    RemoveInsert(s, i, x);
  }

  lemma {:induction false} SumMember(s: seq<nat>, i: nat)
    requires i < |s|
    ensures s[i] <= Sum(s)
    decreases |s|
  {
    if i < |s| - 1 { SumMember(s[..|s| - 1], i); }
  }

  lemma PairApart(ps: seq<nat>, sizes: seq<nat>, i: nat, k: nat)
    requires |ps| == |sizes| && AllApart(ps, sizes) && i < |ps| && k < |ps| && i != k
    ensures Disjoint(ps[i], sizes[i], ps[k], sizes[k])
  {
    if i < k {
      assert Disjoint(ps[i], sizes[i], ps[k], sizes[k]);
    } else {
      assert Disjoint(ps[k], sizes[k], ps[i], sizes[i]);
    }
  }

  /** Pointers below a limit are moved. */
  function Moved(ps: seq<nat>, limit: nat, up: int): (qs: seq<nat>)
    requires forall k :: 0 <= k < |ps| && ps[k] < limit ==> ps[k] + up >= 0
    ensures |qs| == |ps| && forall k :: 0 <= k < |ps| ==> qs[k] == if ps[k] < limit then ps[k] + up else ps[k]
  { seq(|ps|, k requires 0 <= k < |ps| => if ps[k] < limit then ps[k] + up else ps[k]) }

  /** An extent beside one that is removed. */
  lemma ClosedUp(o: nat, n: nat, gone: nat, size: nat, upper: nat, end: nat)
    requires Fits(o, n, upper, end) && Fits(gone, size, upper, end) && Disjoint(gone, size, o, n)
    ensures Fits(if o < gone then o + size else o, n, upper + size, end)
    ensures if o < gone then o + n <= gone else o >= gone + size
  {
    EvenAdd(o, size);
  }

  /** Extent i goes, and those below it move up to close the gap. */
  lemma LayoutRemove(ps: seq<nat>, sizes: seq<nat>, upper: nat, end: nat, i: nat)
    requires Layout(ps, sizes, upper, end) && i < |ps|
    ensures Layout(Moved(Remove(ps, i), ps[i], sizes[i]), Remove(sizes, i), upper + sizes[i], end)
  {
    hide IsEven, Remove, Sum, Fits;
    var qs := Remove(ps, i);
    var ps', sizes' := Moved(qs, ps[i], sizes[i]), Remove(sizes, i);
    RemoveAt(ps, i, qs);
    RemoveAt(sizes, i, sizes');
    SumRemove(sizes, i);
    SumMember(sizes, i);
    assert Fits(ps[i], sizes[i], upper, end);
    EvenUpper(ps[i], sizes[i], upper, end);
    forall k | 0 <= k < |ps'| ensures Fits(ps'[k], sizes'[k], upper + sizes[i], end) {
      var x := if k < i then k else k + 1;
      PairApart(ps, sizes, i, x);
      ClosedUp(ps[x], sizes[x], ps[i], sizes[i], upper, end);
    }
    forall k, l | 0 <= k < l < |ps'| ensures Disjoint(ps'[k], sizes'[k], ps'[l], sizes'[l]) {
      var x, y := if k < i then k else k + 1, if l < i then l else l + 1;
      PairApart(ps, sizes, x, y);
      PairApart(ps, sizes, i, x);
      PairApart(ps, sizes, i, y);
      ClosedUp(ps[x], sizes[x], ps[i], sizes[i], upper, end);
      ClosedUp(ps[y], sizes[y], ps[i], sizes[i], upper, end);
    }
  }

  lemma EvenUpper(o: nat, n: nat, upper: nat, end: nat)
    requires Fits(o, n, upper, end) && IsEven(upper)
    ensures IsEven(upper + n) && n > 0
  {
    EvenAdd(upper, n);
  }

  /** An extent beside one that grows downwards. */
  lemma PushedDown(o: nat, n: nat, at: nat, size: nat, upper: nat, end: nat, delta: int)
    requires Fits(o, n, upper, end) && Fits(at, size, upper, end) && Disjoint(at, size, o, n) && IsEven(delta)
    ensures if o < at then Fits(o - delta, n, upper - delta, end) || o + n - delta > end else o >= at + size
    ensures if o < at then o + n <= at else o >= at + size
    ensures o >= at ==> IsEven(o) && o + n <= end
  {
    EvenAdd(o, delta);
  }

  /** Extent i grows downwards by delta, and those below it move down; or up, for a negative delta. */
  lemma LayoutResize(ps: seq<nat>, sizes: seq<nat>, upper: nat, end: nat, i: nat, delta: int)
    requires Layout(ps, sizes, upper, end) && i < |ps| && IsEven(delta) && delta <= upper && sizes[i] + delta > 0
    ensures Layout(Moved(ps, ps[i] + 1, -delta), sizes[i := sizes[i] + delta], upper - delta, end)
  {
    hide IsEven, Sum;
    var ps', sizes' := Moved(ps, ps[i] + 1, -delta), sizes[i := sizes[i] + delta];
    SumUpdate(sizes, i, sizes[i] + delta);
    SumMember(sizes, i);
    assert Fits(ps[i], sizes[i], upper, end);
    EvenAdd(upper, delta);
    EvenAdd(ps[i], delta);
    EvenAdd(sizes[i], delta);
    forall k | 0 <= k < |ps'| ensures Fits(ps'[k], sizes'[k], upper - delta, end) {
      if k != i {
        PairApart(ps, sizes, i, k);
        PushedDown(ps[k], sizes[k], ps[i], sizes[i], upper, end, delta);
      }
    }
    forall k, l | 0 <= k < l < |ps'| ensures Disjoint(ps'[k], sizes'[k], ps'[l], sizes'[l]) {
      PairApart(ps, sizes, k, l);
      if k != i { PairApart(ps, sizes, i, k); }
      if l != i { PairApart(ps, sizes, i, l); }
    }
  }

  // ----- No gap and no overlap -----

  function Points(o: nat, n: nat): set<nat> { if n == 0 then {} else Points(o, n - 1) + {o + n - 1} }

  lemma {:induction false} PointsAre(o: nat, n: nat)
    ensures |Points(o, n)| == n && forall x :: x in Points(o, n) <==> o <= x < o + n
    decreases n
  {
    if n > 0 { PointsAre(o, n - 1); }
  }

  function Covered(ps: seq<nat>, sizes: seq<nat>): set<nat>
    requires |ps| == |sizes|
  {
    if ps == [] then {} else
      var k := |ps| - 1;
      Covered(ps[..k], sizes[..k]) + Points(ps[k], sizes[k])
  }

  lemma {:induction false} CoveredIs(ps: seq<nat>, sizes: seq<nat>, x: nat)
    requires |ps| == |sizes|
    ensures x in Covered(ps, sizes) <==> exists i :: 0 <= i < |ps| && ps[i] <= x < ps[i] + sizes[i]
  {
    if ps != [] {
      var k := |ps| - 1;
      CoveredIs(ps[..k], sizes[..k], x);
      PointsAre(ps[k], sizes[k]);
    }
  }

  lemma {:induction false} CoveredSize(ps: seq<nat>, sizes: seq<nat>)
    requires |ps| == |sizes| && AllApart(ps, sizes)
    ensures |Covered(ps, sizes)| == Sum(sizes)
  {
    if ps != [] {
      var k := |ps| - 1;
      var front, fsizes := ps[..k], sizes[..k];
      assert AllApart(front, fsizes);
      CoveredSize(front, fsizes);
      PointsAre(ps[k], sizes[k]);
      LastApart(ps, sizes);
    }
  }

  lemma LastApart(ps: seq<nat>, sizes: seq<nat>)
    requires |ps| == |sizes| > 0 && AllApart(ps, sizes)
    ensures var k := |ps| - 1; Covered(ps[..k], sizes[..k]) !! Points(ps[k], sizes[k])
  {
    var k := |ps| - 1;
    PointsAre(ps[k], sizes[k]);
    forall x | x in Covered(ps[..k], sizes[..k]) ensures x !in Points(ps[k], sizes[k]) {
      CoveredIs(ps[..k], sizes[..k], x);
      var i :| 0 <= i < k && ps[..k][i] <= x < ps[..k][i] + sizes[..k][i];
      assert Disjoint(ps[i], sizes[i], ps[k], sizes[k]);
    }
  }

  lemma {:induction false} AllOf(a: set<nat>, b: set<nat>)
    requires a <= b && |a| == |b|
    ensures a == b
  {
    if a != b {
      var x :| x in b && x !in a;
      Fewer(a, b - {x});
    }
  }

  lemma {:induction false} Fewer(a: set<nat>, b: set<nat>)
    requires a <= b
    ensures |a| <= |b|
  {
    if x :| x in a { Fewer(a - {x}, b - {x}); }
  }

  /** Every byte from mp_upper to the end of the page is in exactly one node. */
  lemma ExactTiling(ps: seq<nat>, sizes: seq<nat>, upper: nat, end: nat, x: nat)
    requires Layout(ps, sizes, upper, end) && upper <= x < end
    ensures exists i :: 0 <= i < |ps| && ps[i] <= x < ps[i] + sizes[i]
    ensures forall i, j :: 0 <= i < |ps| && 0 <= j < |ps| && ps[i] <= x < ps[i] + sizes[i] && ps[j] <= x < ps[j] + sizes[j] ==> i == j
  {
    CoveredSize(ps, sizes);
    PointsAre(upper, end - upper);
    forall y | y in Covered(ps, sizes) ensures y in Points(upper, end - upper) {
      CoveredIs(ps, sizes, y);
      var i :| 0 <= i < |ps| && ps[i] <= y < ps[i] + sizes[i];
      assert Fits(ps[i], sizes[i], upper, end);
    }
    AllOf(Covered(ps, sizes), Points(upper, end - upper));
    CoveredIs(ps, sizes, x);
    forall i, j | 0 <= i < |ps| && 0 <= j < |ps| && i != j ensures Disjoint(ps[i], sizes[i], ps[j], sizes[j]) {
      PairApart(ps, sizes, i, j);
    }
  }

  // ----- Nodes that keep their bytes -----

  /** The bytes of a node, its padding included, are at another place. */
  predicate Copied(m: seq<byte>, o: nat, m': seq<byte>, o': nat, n: nat) {
    o + n <= |m| && o' + n <= |m'| && m'[o'..o' + n] == m[o..o + n]
  }

  lemma CopiedNode(m: seq<byte>, o: nat, m': seq<byte>, o': nat, leaf: bool)
    requires o + NODESIZE <= |m| && Copied(m, o, m', o', NodeSize(m, o, leaf))
    ensures o' + NODESIZE <= |m'| && NodeLen(m', o', leaf) == NodeLen(m, o, leaf)
    ensures NodeBytes(m', o', leaf) == NodeBytes(m, o, leaf)
  {
    hide NodeLen;
    var n := NodeSize(m, o, leaf);
    NodeAtLeast(m, o, leaf);
    assert m'[o'..o' + n][..NODESIZE] == m'[o'..o' + NODESIZE] && m[o..o + n][..NODESIZE] == m[o..o + NODESIZE];
    SameNode(m, o, m', o', leaf);
    var l := NodeLen(m, o, leaf);
    assert m'[o'..o' + n][..l] == m'[o'..o' + l] && m[o..o + n][..l] == m[o..o + l];
  }

  lemma NodeAtLeast(m: seq<byte>, o: nat, leaf: bool)
    requires o + NODESIZE <= |m|
    ensures NODESIZE <= NodeLen(m, o, leaf) <= NodeSize(m, o, leaf)
  {
  }

  /** The pages before and after an operation, node by node: old node x is now node y. */
  lemma NodeStays(m: seq<byte>, m': seq<byte>, o: nat, n: nat, o': nat)
    requires o + n <= |m| && o' + n <= |m'| && forall x :: o' <= x < o' + n ==> m'[x] == m[x - o' + o]
    ensures Copied(m, o, m', o', n)
  {
    var a, b := m'[o'..o' + n], m[o..o + n];
    forall k | 0 <= k < n ensures a[k] == b[k] { assert a[k] == m'[o' + k]; }
  }

  // ----- mdb_node_add -----

  lemma AddNode(m: seq<byte>, ps: seq<nat>, upper: nat, leaf: bool, m': seq<byte>, k: nat)
    requires Tiled(m, ps, upper, leaf) && k < |ps| && |m'| == |m| && (forall x :: upper <= x < |m| ==> m'[x] == m[x])
    ensures ps[k] + NODESIZE <= |m|
    ensures NodeLen(m', ps[k], leaf) == NodeLen(m, ps[k], leaf) && NodeBytes(m', ps[k], leaf) == NodeBytes(m, ps[k], leaf)
  {
    hide NodeLen, Layout, Sizes, Tiled, NodeBytes;
    NodeInPage(m, ps, upper, leaf, k);
    NodeStays(m, m', ps[k], NodeSize(m, ps[k], leaf), ps[k]);
    CopiedNode(m, ps[k], m', ps[k], leaf);
  }

  /** All nodes keep their bytes, and node i is new. */
  lemma AddTiled(m: seq<byte>, ps: seq<nat>, upper: nat, leaf: bool, i: nat, ofs: nat, m': seq<byte>, ps': seq<nat>)
    requires Tiled(m, ps, upper, leaf) && i <= |ps| && |m'| == |m| && (forall x :: upper <= x < |m| ==> m'[x] == m[x])
    requires IsEven(ofs) && ofs + NODESIZE <= upper && ofs + NodeSize(m', ofs, leaf) == upper && ps' == Insert<nat>(ps, i, ofs)
    ensures Tiled(m', ps', ofs, leaf)
    ensures View(m', ps', leaf) == Insert(View(m, ps, leaf), i, NodeBytes(m', ofs, leaf))
  {
    hide NodeLen, Layout, Insert, NodeBytes;
    InsertAt<nat>(ps, i, ofs, ps');
    forall k | 0 <= k < |ps|
      ensures ps[k] + NODESIZE <= |m| && NodeLen(m', ps[k], leaf) == NodeLen(m, ps[k], leaf)
      ensures NodeBytes(m', ps[k], leaf) == NodeBytes(m, ps[k], leaf)
    {
      AddNode(m, ps, upper, leaf, m', k);
    }
    assert Headers(m', ps');
    AddSizes(m, ps, upper, leaf, i, ofs, m', ps');
    AddView(m, ps, leaf, i, ofs, m', ps');
  }

  lemma AddView(m: seq<byte>, ps: seq<nat>, leaf: bool, i: nat, ofs: nat, m': seq<byte>, ps': seq<nat>)
    requires Headers(m, ps) && i <= |ps| && |m'| == |m| && Headers(m', ps') && ofs + NODESIZE <= |m| && ps' == Insert<nat>(ps, i, ofs)
    requires forall k :: 0 <= k < |ps| ==> NodeBytes(m', ps[k], leaf) == NodeBytes(m, ps[k], leaf)
    ensures View(m', ps', leaf) == Insert(View(m, ps, leaf), i, NodeBytes(m', ofs, leaf))
  {
    hide NodeBytes, Insert;
    InsertAt<nat>(ps, i, ofs, ps');
    var v, v', node := View(m, ps, leaf), View(m', ps', leaf), NodeBytes(m', ofs, leaf);
    InsertAt(v, i, node, Insert(v, i, node));
    assert v' == Insert(v, i, node);
  }

  lemma AddSizes(m: seq<byte>, ps: seq<nat>, upper: nat, leaf: bool, i: nat, ofs: nat, m': seq<byte>, ps': seq<nat>)
    requires Tiled(m, ps, upper, leaf) && i <= |ps| && |m'| == |m| && Headers(m', ps')
    requires IsEven(ofs) && ofs + NODESIZE <= upper && ofs + NodeSize(m', ofs, leaf) == upper && ps' == Insert<nat>(ps, i, ofs)
    requires forall k :: 0 <= k < |ps| ==> NodeLen(m', ps[k], leaf) == NodeLen(m, ps[k], leaf)
    ensures Tiled(m', ps', ofs, leaf)
  {
    hide NodeLen, Layout, Insert;
    var sizes, sizes' := Sizes(m, ps, leaf), Sizes(m', ps', leaf);
    var size: nat := upper - ofs;
    InsertAt<nat>(ps, i, ofs, ps');
    InsertAt<nat>(sizes, i, size, Insert<nat>(sizes, i, size));
    assert sizes' == Insert<nat>(sizes, i, size);
    LayoutInsert(ps, sizes, upper, |m|, i, ofs);
  }

  lemma NodeInPage(m: seq<byte>, ps: seq<nat>, upper: nat, leaf: bool, k: nat)
    requires Tiled(m, ps, upper, leaf) && k < |ps|
    ensures upper <= ps[k] && ps[k] + NodeSize(m, ps[k], leaf) <= |m| && NODESIZE <= NodeSize(m, ps[k], leaf)
    ensures ps[k] + NodeLen(m, ps[k], leaf) <= |m|
  {
    NodeAtLeast(m, ps[k], leaf);
    assert Fits(ps[k], Sizes(m, ps, leaf)[k], upper, |m|);
  }

  // ----- mdb_node_del -----

  /** Node x is where it was, or has moved up by the size of the deleted one, with all its bytes. */
  lemma DelNode(m: seq<byte>, ps: seq<nat>, upper: nat, leaf: bool, i: nat, sz: nat, m': seq<byte>, x: nat, o: nat)
    requires Tiled(m, ps, upper, leaf) && i < |ps| && sz == NodeSize(m, ps[i], leaf) && |m'| == |m|
    requires forall y :: ps[i] + sz <= y < |m| ==> m'[y] == m[y]
    requires forall y :: upper + sz <= y < ps[i] + sz ==> m'[y] == m[y - sz]
    requires x < |ps| && x != i && o == if ps[x] < ps[i] then ps[x] + sz else ps[x]
    ensures o + NODESIZE <= |m|
    ensures NodeLen(m', o, leaf) == NodeLen(m, ps[x], leaf) && NodeBytes(m', o, leaf) == NodeBytes(m, ps[x], leaf)
  {
    hide NodeLen, Layout, Sizes, Tiled, NodeBytes;
    NodeInPage(m, ps, upper, leaf, i);
    NodeInPage(m, ps, upper, leaf, x);
    NodesApart(m, ps, upper, leaf, i, x);
    NodeStays(m, m', ps[x], NodeSize(m, ps[x], leaf), o);
    CopiedNode(m, ps[x], m', o, leaf);
  }

  /** The other nodes keep their bytes. */
  lemma DelTiled(m: seq<byte>, ps: seq<nat>, upper: nat, leaf: bool, i: nat, sz: nat, m': seq<byte>, ps': seq<nat>)
    requires Tiled(m, ps, upper, leaf) && i < |ps| && sz == NodeSize(m, ps[i], leaf) && |m'| == |m|
    requires forall x :: ps[i] + sz <= x < |m| ==> m'[x] == m[x]
    requires forall x :: upper + sz <= x < ps[i] + sz ==> m'[x] == m[x - sz]
    requires ps' == Moved(Remove<nat>(ps, i), ps[i], sz)
    ensures Tiled(m', ps', upper + sz, leaf)
    ensures View(m', ps', leaf) == Remove(View(m, ps, leaf), i)
  {
    hide NodeLen, Layout, Remove, NodeBytes;
    var qs := Remove<nat>(ps, i);
    RemoveAt<nat>(ps, i, qs);
    forall k | 0 <= k < |qs|
      ensures ps'[k] + NODESIZE <= |m| && NodeLen(m', ps'[k], leaf) == NodeLen(m, qs[k], leaf)
      ensures NodeBytes(m', ps'[k], leaf) == NodeBytes(m, qs[k], leaf)
    {
      DelNode(m, ps, upper, leaf, i, sz, m', if k < i then k else k + 1, ps'[k]);
    }
    assert Headers(m', ps');
    DelSizes(m, ps, upper, leaf, i, sz, m', ps', qs);
    DelView(m, ps, leaf, i, m', ps', qs);
  }

  lemma DelSizes(m: seq<byte>, ps: seq<nat>, upper: nat, leaf: bool, i: nat, sz: nat, m': seq<byte>, ps': seq<nat>, qs: seq<nat>)
    requires Tiled(m, ps, upper, leaf) && i < |ps| && sz == NodeSize(m, ps[i], leaf) && |m'| == |m| && Headers(m', ps')
    requires qs == Remove<nat>(ps, i) && ps' == Moved(qs, ps[i], sz) && Headers(m, qs)
    requires forall k :: 0 <= k < |qs| ==> NodeLen(m', ps'[k], leaf) == NodeLen(m, qs[k], leaf)
    ensures Tiled(m', ps', upper + sz, leaf)
  {
    hide NodeLen, Layout, Remove;
    RemoveAt<nat>(ps, i, qs);
    var sizes, sizes' := Sizes(m, ps, leaf), Sizes(m', ps', leaf);
    RemoveAt<nat>(sizes, i, Remove<nat>(sizes, i));
    assert sizes' == Remove<nat>(sizes, i);
    LayoutRemove(ps, sizes, upper, |m|, i);
    DelBounds(ps, sizes, upper, |m|, i);
  }

  lemma DelView(m: seq<byte>, ps: seq<nat>, leaf: bool, i: nat, m': seq<byte>, ps': seq<nat>, qs: seq<nat>)
    requires Headers(m, ps) && i < |ps| && |m'| == |m| && Headers(m', ps') && qs == Remove<nat>(ps, i) && |ps'| == |qs| && Headers(m, qs)
    requires forall k :: 0 <= k < |qs| ==> NodeBytes(m', ps'[k], leaf) == NodeBytes(m, qs[k], leaf)
    ensures View(m', ps', leaf) == Remove(View(m, ps, leaf), i)
  {
    hide NodeBytes, Remove;
    RemoveAt<nat>(ps, i, qs);
    var v, v' := View(m, ps, leaf), View(m', ps', leaf);
    RemoveAt(v, i, Remove(v, i));
    assert v' == Remove(v, i);
  }

  lemma DelBounds(ps: seq<nat>, sizes: seq<nat>, upper: nat, end: nat, i: nat)
    requires Layout(ps, sizes, upper, end) && i < |ps|
    ensures upper + sizes[i] <= end
  {
    SumMember(sizes, i);
  }

  lemma NodesApart(m: seq<byte>, ps: seq<nat>, upper: nat, leaf: bool, i: nat, x: nat)
    requires Tiled(m, ps, upper, leaf) && i < |ps| && x < |ps| && i != x
    ensures if ps[x] < ps[i] then ps[x] + NodeSize(m, ps[x], leaf) <= ps[i] else ps[x] >= ps[i] + NodeSize(m, ps[i], leaf)
  {
    PairApart(ps, Sizes(m, ps, leaf), i, x);
    NodeAtLeast(m, ps[x], leaf);
    NodeAtLeast(m, ps[i], leaf);
  }

  // ----- mdb_update_key -----

  /** A branch node with another key: the rest of its header stays. */
  function WithKey(node: seq<byte>, key: seq<byte>): seq<byte>
    requires |node| >= NODESIZE && |key| < 0x1_0000
  { node[..6] + Bytes16(|key|) + key }

  lemma UpdNode(m: seq<byte>, ps: seq<nat>, upper: nat, i: nat, delta: int, m': seq<byte>, x: nat, o: nat)
    requires Tiled(m, ps, upper, false) && i < |ps| && |m'| == |m| && delta <= upper && ps[i] - delta + NODESIZE <= |m|
    requires forall y :: ps[i] + NodeSize(m, ps[i], false) <= y < |m| ==> m'[y] == m[y]
    requires forall y :: upper - delta <= y < ps[i] - delta ==> 0 <= y + delta < |m| && m'[y] == m[y + delta]
    requires x < |ps| && x != i && o == if ps[x] < ps[i] + 1 then ps[x] - delta else ps[x]
    ensures o + NODESIZE <= |m|
    ensures NodeLen(m', o, false) == NodeLen(m, ps[x], false) && NodeBytes(m', o, false) == NodeBytes(m, ps[x], false)
  {
    hide NodeLen, Layout, Sizes, Tiled, NodeBytes;
    NodeInPage(m, ps, upper, false, i);
    NodeInPage(m, ps, upper, false, x);
    NodesApart(m, ps, upper, false, i, x);
    NodeStays(m, m', ps[x], NodeSize(m, ps[x], false), o);
    CopiedNode(m, ps[x], m', o, false);
  }

  /** The other nodes keep their bytes; node i ends where it did and has the new key. */
  lemma UpdTiled(m: seq<byte>, ps: seq<nat>, upper: nat, i: nat, delta: int, m': seq<byte>, ps': seq<nat>, key: seq<byte>)
    requires Tiled(m, ps, upper, false) && i < |ps| && |m'| == |m| && delta <= upper && ps[i] - delta + NODESIZE <= |m| && IsEven(delta)
    requires NodeSize(m, ps[i], false) + delta == Even(NODESIZE + |key|) && |key| < 0x1_0000
    requires ps[i] - delta + NODESIZE + |key| <= |m|
    requires forall y :: ps[i] + NodeSize(m, ps[i], false) <= y < |m| ==> m'[y] == m[y]
    requires forall y :: upper - delta <= y < ps[i] - delta ==> 0 <= y + delta < |m| && m'[y] == m[y + delta]
    requires m'[ps[i] - delta..ps[i] - delta + NODESIZE + |key|] == WithKey(m[ps[i]..ps[i] + NODESIZE], key)
    requires ps' == Moved(ps, ps[i] + 1, -delta)
    ensures Tiled(m', ps', upper - delta, false) && |View(m, ps, false)[i]| >= NODESIZE
    ensures View(m', ps', false) == View(m, ps, false)[i := WithKey(View(m, ps, false)[i], key)]
  {
    hide NodeLen, Layout, NodeBytes;
    forall k | 0 <= k < |ps| && k != i
      ensures ps'[k] + NODESIZE <= |m| && NodeLen(m', ps'[k], false) == NodeLen(m, ps[k], false)
      ensures NodeBytes(m', ps'[k], false) == NodeBytes(m, ps[k], false)
    {
      UpdNode(m, ps, upper, i, delta, m', k, ps'[k]);
    }
    assert Headers(m', ps');
    KeyLen(m', ps[i] - delta, m[ps[i]..ps[i] + NODESIZE], key);
    UpdSizes(m, ps, upper, i, delta, m', ps');
    NodeInPage(m, ps, upper, false, i);
    KeyBytes(m, ps[i], m', ps[i] - delta, key);
    assert View(m', ps', false) == View(m, ps, false)[i := WithKey(View(m, ps, false)[i], key)];
  }

  lemma UpdSizes(m: seq<byte>, ps: seq<nat>, upper: nat, i: nat, delta: int, m': seq<byte>, ps': seq<nat>)
    requires Tiled(m, ps, upper, false) && i < |ps| && |m'| == |m| && delta <= upper && IsEven(delta)
    requires ps' == Moved(ps, ps[i] + 1, -delta) && Headers(m', ps')
    requires NodeSize(m', ps'[i], false) == NodeSize(m, ps[i], false) + delta
    requires forall k :: 0 <= k < |ps| && k != i ==> NodeLen(m', ps'[k], false) == NodeLen(m, ps[k], false)
    ensures Tiled(m', ps', upper - delta, false)
  {
    hide NodeLen, Layout;
    NodeAtLeast(m', ps'[i], false);
    var sizes, sizes' := Sizes(m, ps, false), Sizes(m', ps', false);
    assert sizes' == sizes[i := sizes[i] + delta];
    LayoutResize(ps, sizes, upper, |m|, i, delta);
    ResizeBounds(ps, sizes, upper, |m|, i, delta);
  }

  lemma KeyBytes(m: seq<byte>, o: nat, m': seq<byte>, o': nat, key: seq<byte>)
    requires o + NODESIZE <= |m| && o + NodeLen(m, o, false) <= |m| && |key| < 0x1_0000 && o' + NODESIZE + |key| <= |m'|
    requires m'[o'..o' + NODESIZE + |key|] == WithKey(m[o..o + NODESIZE], key) && NodeLen(m', o', false) == NODESIZE + |key|
    ensures |NodeBytes(m, o, false)| >= NODESIZE && NodeBytes(m', o', false) == WithKey(NodeBytes(m, o, false), key)
  {
    NodeAtLeast(m, o, false);
    hide NodeLen;
    assert NodeBytes(m, o, false)[..6] == m[o..o + NODESIZE][..6];
  }

  lemma ResizeBounds(ps: seq<nat>, sizes: seq<nat>, upper: nat, end: nat, i: nat, delta: int)
    requires Layout(ps, sizes, upper, end) && i < |ps| && delta <= upper && sizes[i] + delta > 0
    ensures upper - delta <= end
  {
    SumMember(sizes, i);
  }

  lemma KeyLen(m: seq<byte>, o: nat, h: seq<byte>, key: seq<byte>)
    requires |h| == NODESIZE && |key| < 0x1_0000 && o + NODESIZE + |key| <= |m|
    requires m[o..o + NODESIZE + |key|] == WithKey(h, key)
    ensures NodeLen(m, o, false) == NODESIZE + |key|
  {
    var w := WithKey(h, key);
    assert w[6] == Bytes16(|key|)[0] && w[7] == Bytes16(|key|)[1];
    assert m[o + 6] == m[o..o + NODESIZE + |key|][6] && m[o + 7] == m[o..o + NODESIZE + |key|][7];
  }

  // ----- Pages in memory -----

  /** memcpy into a page. */
  method WriteBytes(mem: array<byte>, at: nat, s: seq<byte>)
    requires at + |s| <= mem.Length
    modifies mem
    ensures mem[at..at + |s|] == s
    ensures forall x :: 0 <= x < at || at + |s| <= x < mem.Length ==> mem[x] == old(mem[x])
  {
    var i := 0;
    while i < |s|
      invariant 0 <= i <= |s|
      invariant forall x :: at <= x < at + i ==> mem[x] == s[x - at]
      invariant forall x :: 0 <= x < at || at + i <= x < mem.Length ==> mem[x] == old(mem[x])
    {
      mem[at + i] := s[i];
      i := i + 1;
    }
  }

  /** memmove within a page. */
  method MemMove(mem: array<byte>, dst: nat, src: nat, len: nat)
    requires dst + len <= mem.Length && src + len <= mem.Length
    modifies mem
    ensures forall x :: dst <= x < dst + len ==> mem[x] == old(mem[x - dst + src])
    ensures forall x :: 0 <= x < dst || dst + len <= x < mem.Length ==> mem[x] == old(mem[x])
  {
    if dst <= src {
      var i := 0;
      while i < len
        invariant 0 <= i <= len
        invariant forall x :: dst <= x < dst + i ==> mem[x] == old(mem[x - dst + src])
        invariant forall x :: 0 <= x < dst || dst + i <= x < mem.Length ==> mem[x] == old(mem[x])
      {
        mem[dst + i] := mem[src + i];
        i := i + 1;
      }
    } else {
      var i := len;
      while i > 0
        invariant 0 <= i <= len
        invariant forall x :: dst + i <= x < dst + len ==> mem[x] == old(mem[x - dst + src])
        invariant forall x :: 0 <= x < dst + i || dst + len <= x < mem.Length ==> mem[x] == old(mem[x])
      {
        i := i - 1;
        mem[dst + i] := mem[src + i];
      }
    }
  }

  /** Pointers from indx on move up by one, and the new one takes the place. */
  method InsertPtr(ptrs: array<nat>, n: nat, indx: nat, ofs: nat)
    requires indx <= n < ptrs.Length
    modifies ptrs
    ensures ptrs[..n + 1] == Insert<nat>(old(ptrs[..n]), indx, ofs)
    ensures forall k :: n < k < ptrs.Length ==> ptrs[k] == old(ptrs[k])
  {
    var i := n;
    while i > indx
      invariant indx <= i <= n
      invariant forall k :: n < k < ptrs.Length ==> ptrs[k] == old(ptrs[k])
      invariant forall k :: 0 <= k <= i ==> ptrs[k] == old(ptrs[k])
      invariant forall k :: i < k <= n ==> ptrs[k] == old(ptrs[k - 1])
    {
      ptrs[i] := ptrs[i - 1];
      i := i - 1;
    }
    ptrs[indx] := ofs;
    ghost var was := old(ptrs[..n]);
    InsertAt<nat>(was, indx, ofs, Insert<nat>(was, indx, ofs));
  }

  /** The pointer at indx goes; those below it are moved up by sz. */
  method RemovePtr(ptrs: array<nat>, n: nat, indx: nat, sz: nat)
    requires indx < n <= ptrs.Length
    modifies ptrs
    ensures ptrs[..n - 1] == Moved(Remove<nat>(old(ptrs[..n]), indx), old(ptrs[indx]), sz)
  {
    hide Moved, Remove;
    var ptr := ptrs[indx];
    ghost var was := ptrs[..n];
    var i, j := 0, 0;
    while i < n
      invariant 0 <= i <= n && j == if i <= indx then i else i - 1
      invariant forall k :: 0 <= k < j ==> ptrs[k] == ShiftedPtr(was[if k < indx then k else k + 1], ptr, sz)
      invariant forall k :: i <= k < n ==> ptrs[k] == was[k]
    {
      if i != indx {
        ptrs[j] := if ptrs[i] < ptr then ptrs[i] + sz else ptrs[i];
        j := j + 1;
      }
      i := i + 1;
    }
    RemovedMoved(was, indx, sz, ptrs[..n - 1]);
  }

  function ShiftedPtr(p: nat, limit: nat, sz: nat): nat { if p < limit then p + sz else p }

  lemma RemovedMoved(was: seq<nat>, indx: nat, sz: nat, t: seq<nat>)
    requires indx < |was| && |t| == |was| - 1
    requires forall k :: 0 <= k < |t| ==> t[k] == ShiftedPtr(was[if k < indx then k else k + 1], was[indx], sz)
    ensures t == Moved(Remove<nat>(was, indx), was[indx], sz)
  {
    RemoveAt<nat>(was, indx, Remove<nat>(was, indx));
  }

  /** The bytes of mdb_update_key: nodes from `upper` up to the header at ptr are shifted, then the key size
    * and the key are written. */
  method RekeyBytes(mem: array<byte>, upper: nat, ptr: nat, ghost size: nat, delta: int, key: seq<byte>)
    requires upper <= ptr && ptr + size <= mem.Length && delta <= upper && |key| < 0x1_0000
    requires size >= NODESIZE && NODESIZE + |key| <= size + delta
    modifies mem
    ensures forall y :: ptr + size <= y < mem.Length ==> mem[y] == old(mem[y])
    ensures forall y :: upper - delta <= y < ptr - delta ==> mem[y] == old(mem[y + delta])
    ensures mem[ptr - delta..ptr - delta + NODESIZE + |key|] == WithKey(old(mem[ptr..ptr + NODESIZE]), key)
  {
    if delta != 0 { MemMove(mem, upper - delta, upper, ptr - upper + NODESIZE); }
    ghost var m1 := mem[..];
    var at := ptr - delta;
    assert forall k :: at <= k < at + NODESIZE ==> m1[k] == old(mem[k + delta]);
    assert m1[at..at + NODESIZE] == old(mem[ptr..ptr + NODESIZE]);
    WriteKey(mem, at, key);
  }

  /** The key size and the key are written over a node's. */
  method WriteKey(mem: array<byte>, at: nat, key: seq<byte>)
    requires |key| < 0x1_0000 && at + NODESIZE + |key| <= mem.Length
    modifies mem
    ensures mem[at..at + NODESIZE + |key|] == WithKey(old(mem[at..at + NODESIZE]), key)
    ensures forall x :: 0 <= x < at || at + NODESIZE + |key| <= x < mem.Length ==> mem[x] == old(mem[x])
  {
    ghost var h := mem[at..at + NODESIZE];
    WriteBytes(mem, at + 6, Bytes16(|key|) + key);
    assert mem[at..at + 6] == h[..6];
    assert mem[at..at + NODESIZE + |key|] == mem[at..at + 6] + mem[at + 6..at + 8 + |key|];
  }

  /** mdb_node_del on the arrays of a page. */
  method DeleteNode(mem: array<byte>, ptrs: array<nat>, n: nat, indx: nat, upper: nat, leaf: bool) returns (sz: nat)
    requires mem as object != ptrs as object && indx < n <= ptrs.Length && Tiled(mem[..], ptrs[..n], upper, leaf)
    modifies mem, ptrs
    ensures sz == old(NodeSize(mem[..], ptrs[indx], leaf))
    ensures Tiled(mem[..], ptrs[..n - 1], upper + sz, leaf)
    ensures View(mem[..], ptrs[..n - 1], leaf) == Remove(old(View(mem[..], ptrs[..n], leaf)), indx)
  {
    hide Layout, NodeLen, Sizes, Remove, Tiled;
    ghost var m, ps := mem[..], ptrs[..n];
    NodeInPage(m, ps, upper, leaf, indx);
    var ptr := ptrs[indx];
    sz := SizeAt(mem, ptr, leaf);
    RemovePtr(ptrs, n, indx, sz);
    MemMove(mem, upper + sz, upper, ptr - upper);
    ghost var m' := mem[..];
    DelTiled(m, ps, upper, leaf, indx, sz, m', ptrs[..n - 1]);
  }

  method SizeAt(mem: array<byte>, o: nat, leaf: bool) returns (sz: nat)
    requires o + NODESIZE <= mem.Length
    ensures sz == NodeSize(mem[..], o, leaf)
  { sz := Even(NodeLen(mem[..], o, leaf)); }

  /** mdb_update_key on the arrays of a page. */
  method RekeyNode(mem: array<byte>, ptrs: array<nat>, n: nat, indx: nat, upper: nat, delta: int, key: seq<byte>)
    requires mem as object != ptrs as object && indx < n <= ptrs.Length && Tiled(mem[..], ptrs[..n], upper, false)
    requires |key| < 0x1_0000 && IsEven(delta) && delta <= upper
    requires NodeSize(mem[..], ptrs[indx], false) + delta == Even(NODESIZE + |key|)
    modifies mem, ptrs
    ensures Tiled(mem[..], ptrs[..n], upper - delta, false)
    ensures |old(View(mem[..], ptrs[..n], false)[indx])| >= NODESIZE
    ensures View(mem[..], ptrs[..n], false) ==
      old(View(mem[..], ptrs[..n], false))[indx := WithKey(old(View(mem[..], ptrs[..n], false)[indx]), key)]
  {
    hide Layout, NodeLen, Sizes, Tiled, View, Even, IsEven, WithKey, Moved;
    ghost var m, ps := mem[..], ptrs[..n];
    var ptr := ptrs[indx];
    NodeInPage(m, ps, upper, false, indx);
    forall k | 0 <= k < n ensures ps[k] - delta >= 0 { NodeInPage(m, ps, upper, false, k); }
    if delta != 0 { MovePtrs(ptrs, n, ptr, delta); } else { assert ptrs[..n] == Moved(ps, ptr + 1, -delta); }
    RekeyBytes(mem, upper, ptr, NodeSize(m, ptr, false), delta, key);
    ghost var m' := mem[..];
    UpdTiled(m, ps, upper, indx, delta, m', ptrs[..n], key);
  }

  /** Pointers up to that of node indx are moved down by delta. */
  method MovePtrs(ptrs: array<nat>, n: nat, ptr: nat, delta: int)
    requires n <= ptrs.Length && forall k :: 0 <= k < n && ptrs[k] <= ptr ==> ptrs[k] - delta >= 0
    modifies ptrs
    ensures (forall k :: 0 <= k < n && old(ptrs[k]) < ptr + 1 ==> old(ptrs[k]) - delta >= 0) && ptrs[..n] == Moved(old(ptrs[..n]), ptr + 1, -delta)
  {
    var i := 0;
    while i < n
      invariant 0 <= i <= n
      invariant forall k :: 0 <= k < i ==> ptrs[k] == if old(ptrs[k]) <= ptr then old(ptrs[k]) - delta else old(ptrs[k])
      invariant forall k :: i <= k < n ==> ptrs[k] == old(ptrs[k])
    {
      if ptrs[i] <= ptr { ptrs[i] := ptrs[i] - delta; }
      i := i + 1;
    }
  }

  /** The bytes of a new node. */
  function NewNode(lo: nat, hi: nat, flags: nat, key: seq<byte>, stored: seq<byte>): (s: seq<byte>)
    requires lo < 0x1_0000 && hi < 0x1_0000 && flags < 0x1_0000 && |key| < 0x1_0000
    ensures |s| == NODESIZE + |key| + |stored|
  { Bytes16(lo) + Bytes16(hi) + Bytes16(flags) + Bytes16(|key|) + key + stored }

  /** What is stored in a leaf is what its header says. */
  predicate StoredOk(leaf: bool, lo: nat, hi: nat, flags: nat, stored: seq<byte>) {
    |stored| == if !leaf then 0 else if flags % 2 == 1 then 8 else lo + 0x1_0000 * hi
  }

  lemma NewNodeLen(m: seq<byte>, o: nat, leaf: bool, lo: nat, hi: nat, flags: nat, key: seq<byte>, stored: seq<byte>)
    requires lo < 0x1_0000 && hi < 0x1_0000 && flags < 0x1_0000 && |key| < 0x1_0000 && StoredOk(leaf, lo, hi, flags, stored)
    requires o + NODESIZE + |key| + |stored| <= |m|
    requires m[o..o + NODESIZE + |key| + |stored|] == NewNode(lo, hi, flags, key, stored)
    ensures NodeLen(m, o, leaf) == NODESIZE + |key| + |stored|
  {
    var w := NewNode(lo, hi, flags, key, stored);
    HeaderOf(lo, hi, flags, key, stored);
    assert forall k :: 0 <= k < NODESIZE ==> w[k] == m[o..o + NODESIZE + |key| + |stored|][k];
    assert m[o] == w[0] && m[o + 1] == w[1] && m[o + 2] == w[2] && m[o + 3] == w[3];
    assert m[o + 4] == w[4] && m[o + 5] == w[5] && m[o + 6] == w[6] && m[o + 7] == w[7];
  }

  lemma HeaderOf(lo: nat, hi: nat, flags: nat, key: seq<byte>, stored: seq<byte>)
    requires lo < 0x1_0000 && hi < 0x1_0000 && flags < 0x1_0000 && |key| < 0x1_0000
    ensures var w := NewNode(lo, hi, flags, key, stored); U16(w, 0) == lo && U16(w, 2) == hi && U16(w, 4) == flags && U16(w, 6) == |key|
  {
    var w := NewNode(lo, hi, flags, key, stored);
    assert w[0] == Bytes16(lo)[0] && w[1] == Bytes16(lo)[1];
    assert w[2] == Bytes16(hi)[0] && w[3] == Bytes16(hi)[1];
    assert w[4] == Bytes16(flags)[0] && w[5] == Bytes16(flags)[1];
    assert w[6] == Bytes16(|key|)[0] && w[7] == Bytes16(|key|)[1];
  }

  /** mdb_node_add on the arrays of a page. */
  method PlaceNode(mem: array<byte>, ptrs: array<nat>, n: nat, indx: nat, ofs: nat, ghost upper: nat, leaf: bool,
                   lo: nat, hi: nat, flags: nat, key: seq<byte>, stored: seq<byte>)
    requires mem as object != ptrs as object && indx <= n < ptrs.Length && Tiled(mem[..], ptrs[..n], upper, leaf)
    requires lo < 0x1_0000 && hi < 0x1_0000 && flags < 0x1_0000 && |key| < 0x1_0000 && StoredOk(leaf, lo, hi, flags, stored)
    requires ofs + Even(NODESIZE + |key| + |stored|) == upper
    modifies mem, ptrs
    ensures Tiled(mem[..], ptrs[..n + 1], ofs, leaf)
    ensures View(mem[..], ptrs[..n + 1], leaf) ==
      Insert(old(View(mem[..], ptrs[..n], leaf)), indx, NewNode(lo, hi, flags, key, stored))
    ensures forall k :: n < k < ptrs.Length ==> ptrs[k] == old(ptrs[k])
  {
    hide Layout, NodeLen, Sizes, Insert, StoredOk, NewNode, Even, Tiled;
    ghost var m, ps := mem[..], ptrs[..n];
    UpperEven(m, ps, upper, leaf);
    InsertPtr(ptrs, n, indx, ofs);
    WriteBytes(mem, ofs, NewNode(lo, hi, flags, key, stored));
    ghost var m' := mem[..];
    assert m'[ofs..ofs + NODESIZE + |key| + |stored|] == NewNode(lo, hi, flags, key, stored);
    NewNodeLen(m', ofs, leaf, lo, hi, flags, key, stored);
    EvenDiff(upper, Even(NODESIZE + |key| + |stored|));
    AddTiled(m, ps, upper, leaf, indx, ofs, m', ptrs[..n + 1]);
  }

  class Page {
    const leaf: bool
    const nodemax: nat
    const mem: array<byte>
    const ptrs: array<nat>  // mp_ptrs
    var lower: nat
    var upper: nat

    /** mdb_page_new */
    constructor (psize: nat, leaf: bool, nodemax: nat)
      requires psize % 2 == 0 && PAGEHDRSZ <= psize
      ensures Valid() && fresh(mem) && fresh(ptrs) && Nodes() == [] && mem.Length == psize && SizeLeft() == psize - PAGEHDRSZ
      ensures this.leaf == leaf && this.nodemax == nodemax
    {
      this.leaf, this.nodemax, lower, upper := leaf, nodemax, PAGEHDRSZ, psize;
      mem, ptrs := new byte[psize], new nat[psize];
    }

    function NumKeys(): int reads this { (lower - PAGEHDRSZ) / 2 }
    function SizeLeft(): int reads this { upper - lower }

    ghost predicate Valid()
      reads this, mem, ptrs
    {
      && mem as object != ptrs as object && mem.Length % 2 == 0 && ptrs.Length == mem.Length
      && lower >= PAGEHDRSZ && lower % 2 == 0 && lower <= upper && NumKeys() <= ptrs.Length
      && Tiled(mem[..], ptrs[..NumKeys()], upper, leaf)
    }

    /** The nodes of the page in the order of the pointers. */
    ghost function Nodes(): seq<seq<byte>>
      requires Valid()
      reads this, mem, ptrs
    { View(mem[..], ptrs[..NumKeys()], leaf) }

    /** mdb_node_add: all other nodes stay as they are; it fails, and changes nothing, exactly when the
      * node and its pointer have no room. */
    method Add(indx: nat, lo: nat, hi: nat, flags: nat, key: seq<byte>, stored: seq<byte>) returns (ok: bool)
      requires Valid() && indx <= NumKeys()
      requires lo < 0x1_0000 && hi < 0x1_0000 && flags < 0x1_0000 && |key| < 0x1_0000 && StoredOk(leaf, lo, hi, flags, stored)
      modifies this, mem, ptrs
      ensures Valid()
      ensures ok <==> Even(NODESIZE + |key| + |stored|) + 2 <= old(SizeLeft())
      ensures ok ==> Nodes() == Insert(old(Nodes()), indx, NewNode(lo, hi, flags, key, stored))
      ensures ok ==> SizeLeft() == old(SizeLeft()) - Even(NODESIZE + |key| + |stored|) - 2
      ensures !ok ==> Nodes() == old(Nodes()) && SizeLeft() == old(SizeLeft())
      ensures forall k :: old(NumKeys()) < k < ptrs.Length ==> ptrs[k] == old(ptrs[k])
    {
      hide Layout, NodeLen, Sizes, Insert, StoredOk, NewNode;
      var room := upper - lower - 2;
      var nodeSize := Even(NODESIZE + |key| + |stored|);
      if nodeSize > room { return false; }
      Place(indx, upper - nodeSize, lo, hi, flags, key, stored);
      ok := true;
    }

    /** Write the node at ofs and its pointer at indx. */
    method Place(indx: nat, ofs: nat, lo: nat, hi: nat, flags: nat, key: seq<byte>, stored: seq<byte>)
      requires Valid() && indx <= NumKeys() && lower + 2 <= ofs && ofs + Even(NODESIZE + |key| + |stored|) == upper
      requires lo < 0x1_0000 && hi < 0x1_0000 && flags < 0x1_0000 && |key| < 0x1_0000 && StoredOk(leaf, lo, hi, flags, stored)
      modifies this, mem, ptrs
      ensures Valid() && upper == ofs && lower == old(lower) + 2
      ensures forall k :: old(NumKeys()) < k < ptrs.Length ==> ptrs[k] == old(ptrs[k])
      ensures Nodes() == Insert(old(Nodes()), indx, NewNode(lo, hi, flags, key, stored))
    {
      hide Layout, NodeLen, Sizes, Insert, StoredOk, NewNode, Even, Tiled;
      UpperEven(mem[..], ptrs[..NumKeys()], upper, leaf);
      PlaceNode(mem, ptrs, NumKeys(), indx, ofs, upper, leaf, lo, hi, flags, key, stored);
      upper, lower := ofs, lower + 2;
    }

    /** mdb_node_add on a leaf: data that would make the node longer than me_nodemax goes to an overflow
      * page, whose number is stored instead; F_BIGDATA says that it is there already. */
    method AddLeaf(indx: nat, key: seq<byte>, data: seq<byte>, size: nat, flags: nat, pgno: seq<byte>) returns (ok: bool)
      requires Valid() && leaf && indx <= NumKeys() && |key| < 0x1_0000 && size < 0x1_0000_0000 && flags < 0xFFFF
      requires |pgno| == 8 && (flags % 2 == 0 ==> |data| == size)
      modifies this, mem, ptrs
      ensures Valid()
      ensures var big := flags % 2 == 1 || NODESIZE + |key| + size > nodemax;
        var node := NewNode(size % 0x1_0000, size / 0x1_0000, if flags % 2 == 0 && big then flags + 1 else flags, key, if big then pgno else data);
        (ok <==> Even(|node|) + 2 <= old(SizeLeft())) &&
        (if ok then Nodes() == Insert(old(Nodes()), indx, node) && SizeLeft() == old(SizeLeft()) - Even(|node|) - 2
         else Nodes() == old(Nodes()) && SizeLeft() == old(SizeLeft()))
    {
      hide Layout, NodeLen, Sizes, Insert, Tiled;
      var lo, hi := size % 0x1_0000, size / 0x1_0000;
      if flags % 2 == 1 {
        ok := Add(indx, lo, hi, flags, key, pgno);
      } else if NODESIZE + |key| + size > nodemax {
        ok := Add(indx, lo, hi, flags + 1, key, pgno);
      } else {
        ok := Add(indx, lo, hi, flags, key, data);
      }
    }

    /** mdb_node_del: the other nodes keep their order and their bytes. */
    method Delete(indx: nat)
      requires Valid() && indx < NumKeys()
      modifies this, mem, ptrs
      ensures Valid() && Nodes() == Remove(old(Nodes()), indx)
      ensures SizeLeft() == old(SizeLeft()) + Even(|old(Nodes())[indx]|) + 2
    {
      hide Layout, NodeLen, Sizes, Remove, Tiled, Even, View;
      var n := NumKeys();
      UpperEven(mem[..], ptrs[..n], upper, leaf);
      NodeInPage(mem[..], ptrs[..n], upper, leaf, indx);
      ViewLen(mem[..], ptrs[..n], leaf, indx);
      ghost var len := NodeLen(mem[..], ptrs[indx], leaf);
      assert |Nodes()[indx]| == len;
      var sz := DeleteNode(mem, ptrs, n, indx, upper, leaf);
      assert sz == Even(len);
      lower, upper := lower - 2, upper + sz;
    }

    /** The length of the node at an offset, from its header. */
    function LenAt(o: nat): nat
      requires o + NODESIZE <= mem.Length
      reads mem
    { NodeLen(mem[..], o, leaf) }

    /** mdb_update_key, up to the case that asks for a split: the key of node indx is replaced, all other
      * nodes stay as they are. */
    method UpdateKey(indx: nat, key: seq<byte>) returns (ok: bool)
      requires Valid() && !leaf && indx < NumKeys() && |key| < 0x1_0000
      modifies this, mem, ptrs
      ensures Valid() && |old(Nodes())[indx]| >= NODESIZE
      ensures ok <==> Even(|key|) - Even(|old(Nodes())[indx]| - NODESIZE) <= old(SizeLeft()) || Even(|key|) <= Even(|old(Nodes())[indx]| - NODESIZE)
      ensures ok ==> Nodes() == old(Nodes())[indx := WithKey(old(Nodes())[indx], key)]
      ensures ok ==> SizeLeft() == old(SizeLeft()) - (Even(|key|) - Even(|old(Nodes())[indx]| - NODESIZE))
      ensures !ok ==> Nodes() == old(Nodes()) && SizeLeft() == old(SizeLeft())
    {
      hide Layout, NodeLen, Sizes, Tiled, View, Even, IsEven, WithKey;
      UpperEven(mem[..], ptrs[..NumKeys()], upper, leaf);
      var n := NumKeys();
      ghost var m, ps, up := mem[..], ptrs[..n], upper;
      NodeInPage(m, ps, up, leaf, indx);
      ViewLen(m, ps, leaf, indx);
      NodeAtLeast(m, ps[indx], leaf);
      var ptr := ptrs[indx];
      var ksize, oksize := Even(|key|), Even(LenAt(ptr) - NODESIZE);
      var delta: int := (ksize as int) - oksize;
      if delta > 0 && upper - lower < delta { return false; }
      EvenSizes(|key|, LenAt(ptr));
      RekeyNode(mem, ptrs, n, indx, upper, delta, key);
      upper := upper - delta;
      ok := true;
    }
  }

  lemma ViewLen(m: seq<byte>, ps: seq<nat>, leaf: bool, i: nat)
    requires Headers(m, ps) && i < |ps| && ps[i] + NodeLen(m, ps[i], leaf) <= |m|
    ensures |View(m, ps, leaf)[i]| == NodeLen(m, ps[i], leaf)
  {
  }

  lemma EvenSizes(k: nat, len: nat)
    requires len >= NODESIZE
    ensures Even(NODESIZE + k) == NODESIZE + Even(k) && Even(len) == NODESIZE + Even(len - NODESIZE)
    ensures IsEven(Even(k) - Even(len - NODESIZE))
  {
    EvenShift(k);
    EvenShift(len - NODESIZE);
    hide Even;
  }

  lemma EvenShift(k: nat)
    ensures Even(NODESIZE + k) == NODESIZE + Even(k)
  {
    assert (k + 9) / 2 == (k + 1) / 2 + 4;
  }

  lemma UpperEven(m: seq<byte>, ps: seq<nat>, upper: nat, leaf: bool)
    requires Tiled(m, ps, upper, leaf)
    ensures IsEven(upper) && upper <= |m| && Headers(m, ps)
  {
  }

  lemma EvenDiff(upper: int, size: int)
    requires IsEven(upper) && size % 2 == 0
    ensures IsEven(upper - size)
  {
  }

  /** SIZELEFT is exactly what the header, the pointers and the nodes leave of the page. */
  lemma SizeLeftExact(p: Page)
    requires p.Valid()
    ensures p.SizeLeft() == p.mem.Length - PAGEHDRSZ - 2 * p.NumKeys() - Sum(Sizes(p.mem[..], p.ptrs[..p.NumKeys()], p.leaf))
  {
  }

  predicate InNode(m: seq<byte>, o: nat, leaf: bool, x: nat)
    requires o + NODESIZE <= |m|
  { o <= x < o + NodeSize(m, o, leaf) }

  /** Every byte of the node area of a page is in exactly one node. */
  lemma EveryByteOnce(m: seq<byte>, ps: seq<nat>, upper: nat, leaf: bool, x: nat)
    requires Tiled(m, ps, upper, leaf) && upper <= x < |m|
    ensures exists i :: 0 <= i < |ps| && InNode(m, ps[i], leaf, x)
    ensures forall i, j :: 0 <= i < |ps| && 0 <= j < |ps| && InNode(m, ps[i], leaf, x) && InNode(m, ps[j], leaf, x) ==> i == j
  {
    var sizes := Sizes(m, ps, leaf);
    ExactTiling(ps, sizes, upper, |m|, x);
    var i :| 0 <= i < |ps| && ps[i] <= x < ps[i] + sizes[i];
    assert InNode(m, ps[i], leaf, x);
  }
}
