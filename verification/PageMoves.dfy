/** The bytes of pages in mdb_page_split, mdb_page_merge and mdb_node_move: nodes are copied one at a time,
  * whole, and the room checks of mdb_node_add decide about success. */
module PageMoves {
  import opened SlottedPage
  import Cut = SplitPoint

  // ----- Nodes as byte strings -----

  predicate IsNode(w: seq<byte>, leaf: bool) { |w| >= NODESIZE && |w| == NodeLen(w, 0, leaf) }

  predicate AreNodes(v: seq<seq<byte>>, leaf: bool) { forall i :: 0 <= i < |v| ==> IsNode(v[i], leaf) }

  function KeyOf(w: seq<byte>): seq<byte>
    requires |w| >= NODESIZE
  { if NODESIZE + U16(w, 6) <= |w| then w[NODESIZE..NODESIZE + U16(w, 6)] else [] }

  function StoredOf(w: seq<byte>): seq<byte>
    requires |w| >= NODESIZE
  { if NODESIZE + U16(w, 6) <= |w| then w[NODESIZE + U16(w, 6)..] else [] }

  /** A branch node may get another key on its way; a leaf node stays as it is. */
  function Rekeyed(w: seq<byte>, leaf: bool, key: seq<byte>): seq<byte>
    requires |w| >= NODESIZE && |key| < 0x1_0000
  { if leaf then w else WithKey(w, key) }

  lemma HalfWord(w: seq<byte>, o: nat)
    requires o + 2 <= |w|
    ensures U16(w, o) < 0x1_0000 && Bytes16(U16(w, o)) == w[o..o + 2]
  {
    assert w[o..o + 2] == [w[o], w[o + 1]];
    var a: nat, b: nat := w[o] as nat, w[o + 1] as nat;
    assert a < 256 && (a + 256 * b) % 256 == a && (a + 256 * b) / 256 == b;
  }

  lemma HeaderBytes(w: seq<byte>)
    requires |w| >= NODESIZE
    ensures U16(w, 0) < 0x1_0000 && U16(w, 2) < 0x1_0000 && U16(w, 4) < 0x1_0000 && U16(w, 6) < 0x1_0000
    ensures Bytes16(U16(w, 0)) + Bytes16(U16(w, 2)) + Bytes16(U16(w, 4)) == w[..6] && Bytes16(U16(w, 6)) == w[6..8]
  {
    HalfWord(w, 0);
    HalfWord(w, 2);
    HalfWord(w, 4);
    HalfWord(w, 6);
    assert w[..6] == w[0..2] + w[2..4] + w[4..6];
  }

  /** A node is its header, its key and what it stores. */
  lemma NodeParts(w: seq<byte>, leaf: bool)
    requires IsNode(w, leaf)
    ensures U16(w, 0) < 0x1_0000 && U16(w, 2) < 0x1_0000 && U16(w, 4) < 0x1_0000 && |KeyOf(w)| == U16(w, 6) < 0x1_0000
    ensures StoredOk(leaf, U16(w, 0), U16(w, 2), U16(w, 4), StoredOf(w))
    ensures NewNode(U16(w, 0), U16(w, 2), U16(w, 4), KeyOf(w), StoredOf(w)) == w
    ensures !leaf ==> StoredOf(w) == []
  {
    HeaderBytes(w);
    assert w == w[..6] + w[6..8] + KeyOf(w) + StoredOf(w);
  }

  lemma BranchParts(w: seq<byte>, key: seq<byte>)
    requires IsNode(w, false) && |key| < 0x1_0000
    ensures U16(w, 0) < 0x1_0000 && U16(w, 2) < 0x1_0000 && U16(w, 4) < 0x1_0000
    ensures NewNode(U16(w, 0), U16(w, 2), U16(w, 4), key, []) == WithKey(w, key)
  {
    HeaderBytes(w);
  }

  /** A branch node with another key is a branch node with that key. */
  lemma RekeyedIs(w: seq<byte>, key: seq<byte>)
    requires IsNode(w, false) && |key| < 0x1_0000
    ensures IsNode(WithKey(w, key), false) && KeyOf(WithKey(w, key)) == key
    ensures key == KeyOf(w) ==> WithKey(w, key) == w
  {
    var x := WithKey(w, key);
    assert x[6] == Bytes16(|key|)[0] && x[7] == Bytes16(|key|)[1];
    assert x[NODESIZE..NODESIZE + |key|] == key;
    HeaderBytes(w);
    assert w == w[..6] + w[6..8] + w[8..];
  }

  /** What the pointers of a page lead to are nodes. */
  lemma NodesAre(p: Page)
    requires p.Valid()
    ensures AreNodes(p.Nodes(), p.leaf)
  {
    var m, ps := p.mem[..], p.ptrs[..p.NumKeys()];
    forall i | 0 <= i < |p.Nodes()| ensures IsNode(p.Nodes()[i], p.leaf) {
      NodeAt(m, ps, p.upper, p.leaf, i);
    }
  }

  lemma NodeAt(m: seq<byte>, ps: seq<nat>, upper: nat, leaf: bool, i: nat)
    requires Tiled(m, ps, upper, leaf) && i < |ps|
    ensures ps[i] + NODESIZE <= |m| && ps[i] + NodeLen(m, ps[i], leaf) <= |m|
    ensures View(m, ps, leaf)[i] == m[ps[i]..ps[i] + NodeLen(m, ps[i], leaf)]
    ensures IsNode(View(m, ps, leaf)[i], leaf)
  {
    hide NodeLen, Layout, Sizes;
    NodeInPage(m, ps, upper, leaf, i);
    NodeAtLeast(m, ps[i], leaf);
    var w := m[ps[i]..ps[i] + NodeLen(m, ps[i], leaf)];
    assert w[0..NODESIZE] == m[ps[i]..ps[i] + NODESIZE];
    SameNode(m, ps[i], w, 0, leaf);
  }

  // ----- Bytes that nodes take -----

  /** What a node takes of a page, its slot included. */
  function Takes(v: seq<seq<byte>>): (s: seq<nat>)
    ensures |s| == |v| && forall i :: 0 <= i < |v| ==> s[i] == Even(|v[i]|) + 2
  { seq(|v|, i requires 0 <= i < |v| => Even(|v[i]|) + 2) }

  function Taken(v: seq<seq<byte>>): nat { Cut.Bytes(Takes(v), 0, |v|) }

  lemma TakenOne(v: seq<seq<byte>>, w: seq<byte>)
    ensures Taken(v + [w]) == Taken(v) + Even(|w|) + 2
  {
    assert Takes(v + [w]) == Takes(v) + [Even(|w|) + 2];
    Cut.BytesConcat(Takes(v), [Even(|w|) + 2]);
    assert Cut.Bytes([Even(|w|) + 2], 0, 1) == Even(|w|) + 2;
  }

  lemma TakesConcat(a: seq<seq<byte>>, b: seq<seq<byte>>)
    ensures Takes(a + b) == Takes(a) + Takes(b)
  {
    hide Even;
    var t, u := Takes(a + b), Takes(a) + Takes(b);
    forall i | 0 <= i < |a| + |b| ensures t[i] == u[i] {
      assert (a + b)[i] == if i < |a| then a[i] else b[i - |a|];
    }
  }

  lemma TakenBoth(a: seq<seq<byte>>, b: seq<seq<byte>>)
    ensures Taken(a + b) == Taken(a) + Taken(b)
  {
    hide Takes, Cut.Bytes;
    TakesConcat(a, b);
    Cut.BytesConcat(Takes(a), Takes(b));
  }

  /** The first nodes take no more than all. */
  lemma TakenFirst(v: seq<seq<byte>>, n: nat)
    requires n <= |v|
    ensures Taken(v[..n]) <= Taken(v)
  {
    TakenBoth(v[..n], v[n..]);
    assert v == v[..n] + v[n..];
  }

  lemma TakenNext(v: seq<seq<byte>>, n: nat)
    requires n < |v|
    ensures Taken(v[..n + 1]) == Taken(v[..n]) + Even(|v[n]|) + 2 && v[..n + 1] == v[..n] + [v[n]]
  {
    assert v[..n + 1] == v[..n] + [v[n]];
    TakenOne(v[..n], v[n]);
  }

  // ----- One node -----

  ghost function Footprint(p: Page): set<object> { {p, p.mem, p.ptrs} }

  /** The node a pointer leads to. */
  method ReadNode(p: Page, o: nat, ghost i: nat) returns (w: seq<byte>)
    requires p.Valid() && i < p.NumKeys() && o == p.ptrs[i]
    ensures w == p.Nodes()[i] && IsNode(w, p.leaf)
  {
    hide NodeLen, Tiled, View;
    NodeAt(p.mem[..], p.ptrs[..p.NumKeys()], p.upper, p.leaf, i);
    w := p.mem[o..o + p.LenAt(o)];
    assert w == p.mem[..][o..o + p.LenAt(o)];
  }

  /** mdb_node_add with the contents of a node; in a branch, under another key. */
  method AddCopy(p: Page, indx: nat, w: seq<byte>, key: seq<byte>) returns (ok: bool)
    requires p.Valid() && indx <= p.NumKeys() && IsNode(w, p.leaf) && |key| < 0x1_0000
    modifies p, p.mem, p.ptrs
    ensures p.Valid() && (ok <==> Even(|Rekeyed(w, p.leaf, key)|) + 2 <= old(p.SizeLeft()))
    ensures ok ==> p.Nodes() == Insert(old(p.Nodes()), indx, Rekeyed(w, p.leaf, key))
    ensures p.SizeLeft() == old(p.SizeLeft()) - (if ok then Even(|Rekeyed(w, p.leaf, key)|) + 2 else 0)
    ensures !ok ==> p.Nodes() == old(p.Nodes())
    ensures forall k :: old(p.NumKeys()) < k < p.ptrs.Length ==> p.ptrs[k] == old(p.ptrs[k])
  {
    hide Tiled, View, NewNode, Insert, U16, Even;
    NodeParts(w, p.leaf);
    if p.leaf {
      ok := p.Add(indx, U16(w, 0), U16(w, 2), U16(w, 4), KeyOf(w), StoredOf(w));
    } else {
      BranchParts(w, key);
      ok := p.Add(indx, U16(w, 0), U16(w, 2), U16(w, 4), key, []);
    }
  }

  lemma Appended<T>(s: seq<T>, x: T)
    ensures Insert(s, |s|, x) == s + [x]
  {
  }

  lemma CountsNodes(p: Page)
    requires p.Valid()
    ensures |p.Nodes()| == p.NumKeys()
  {
  }

  /** The same at the end of the page. */
  method AppendCopy(p: Page, w: seq<byte>, key: seq<byte>) returns (ok: bool)
    requires p.Valid() && IsNode(w, p.leaf) && |key| < 0x1_0000
    modifies p, p.mem, p.ptrs
    ensures p.Valid() && (ok <==> Even(|Rekeyed(w, p.leaf, key)|) + 2 <= old(p.SizeLeft()))
    ensures p.Nodes() == if ok then old(p.Nodes()) + [Rekeyed(w, p.leaf, key)] else old(p.Nodes())
    ensures p.SizeLeft() == old(p.SizeLeft()) - (if ok then Even(|Rekeyed(w, p.leaf, key)|) + 2 else 0)
    ensures forall k :: old(p.NumKeys()) < k < p.ptrs.Length ==> p.ptrs[k] == old(p.ptrs[k])
  {
    hide Tiled, View, NewNode, Insert, U16, Even, NodeLen;
    CountsNodes(p);
    Appended(p.Nodes(), Rekeyed(w, p.leaf, key));
    ok := AddCopy(p, p.NumKeys(), w, key);
  }

  /** The page had nodes d and some room, and has got the first i nodes of c. */
  ghost predicate Filled(p: Page, d: seq<seq<byte>>, c: seq<seq<byte>>, i: nat, room: int)
    reads p, p.mem, p.ptrs
  { i <= |c| && p.Valid() && p.Nodes() == d + c[..i] && p.SizeLeft() == room - Taken(c[..i]) && Taken(c[..i]) <= room }

  lemma FilledBegins(p: Page, c: seq<seq<byte>>)
    requires p.Valid()
    ensures Filled(p, p.Nodes(), c, 0, p.SizeLeft())
  {
    assert p.Nodes() + c[..0] == p.Nodes() && Taken(c[..0]) == 0;
  }

  lemma FilledValid(p: Page, c: seq<seq<byte>>, i: nat, room: int)
    requires Filled(p, [], c, i, room)
    ensures p.Valid()
  {
  }

  lemma FilledEnds(p: Page, c: seq<seq<byte>>, room: int)
    requires Filled(p, [], c, |c|, room)
    ensures p.Valid() && p.Nodes() == c && Taken(c) <= room
  {
    assert c[..|c|] == c && [] + c == c;
  }

  /** One more node of c; if it has no room, there was no room for all of c. */
  method AddNext(p: Page, w: seq<byte>, key: seq<byte>, ghost d: seq<seq<byte>>, ghost c: seq<seq<byte>>, ghost i: nat, ghost room: int)
    returns (ok: bool)
    requires Filled(p, d, c, i, room) && i < |c| && IsNode(w, p.leaf) && |key| < 0x1_0000 && c[i] == Rekeyed(w, p.leaf, key)
    modifies p, p.mem, p.ptrs
    ensures if ok then Filled(p, d, c, i + 1, room) else p.Valid() && Taken(c) > room
    ensures forall k :: old(p.NumKeys()) < k < p.ptrs.Length ==> p.ptrs[k] == old(p.ptrs[k])
  {
    hide Tiled, View, Even, Taken, U16, NodeLen, Rekeyed;
    TakenNext(c, i);
    TakenFirst(c, i + 1);
    assert d + c[..i + 1] == d + c[..i] + [c[i]];
    ok := AppendCopy(p, w, key);
  }

  // ----- mdb_page_merge -----

  /** The nodes of a page on their way into another one: the first of a branch gets the lowest key below it. */
  function Coming(v: seq<seq<byte>>, leaf: bool, low: seq<byte>): (r: seq<seq<byte>>)
    requires |low| < 0x1_0000
    ensures |r| == |v|
  { if leaf || v == [] || |v[0]| < NODESIZE then v else [WithKey(v[0], low)] + v[1..] }

  /** The nodes of src are added to dst, and all find room if and only if there is room for all. */
  method MergePages(src: Page, dst: Page, low: seq<byte>) returns (ok: bool)
    requires src.Valid() && dst.Valid() && src.leaf == dst.leaf && Footprint(src) !! Footprint(dst) && |low| < 0x1_0000
    modifies dst, dst.mem, dst.ptrs
    ensures dst.Valid() && (ok <==> Taken(Coming(src.Nodes(), src.leaf, low)) <= old(dst.SizeLeft()))
    ensures ok ==> dst.Nodes() == old(dst.Nodes()) + Coming(src.Nodes(), src.leaf, low)
    ensures ok ==> dst.SizeLeft() == old(dst.SizeLeft()) - Taken(Coming(src.Nodes(), src.leaf, low))
  {
    hide Tiled, View, Even, Taken, U16, NodeLen, Coming, Rekeyed;
    ghost var d, room, c := dst.Nodes(), dst.SizeLeft(), Coming(src.Nodes(), src.leaf, low);
    CountsNodes(src);
    NodesAre(src);
    FilledBegins(dst, c);
    var i := 0;
    while i < src.NumKeys()
      invariant 0 <= i <= |c| && src.Valid() && Filled(dst, d, c, i, room)
      invariant src.Nodes() == old(src.Nodes()) && src.NumKeys() == |c|
    {
      var w := ReadNode(src, src.ptrs[i], i);
      NodeKept(src.Nodes(), src.leaf, low, i);
      ok := AddNext(dst, w, if i == 0 then low else KeyOf(w), d, c, i, room);
      if !ok { return; }
      i := i + 1;
    }
    assert c[..i] == c;
    ok := true;
  }

  /** Which key a node is added under. */
  lemma NodeKept(v: seq<seq<byte>>, leaf: bool, low: seq<byte>, i: nat)
    requires AreNodes(v, leaf) && i < |v| && |low| < 0x1_0000
    ensures |KeyOf(v[i])| < 0x1_0000
    ensures Coming(v, leaf, low)[i] == Rekeyed(v[i], leaf, if i == 0 then low else KeyOf(v[i]))
  {
    hide NodeLen, U16, KeyOf, StoredOf, StoredOk, NewNode, WithKey;
    NodeParts(v[i], leaf);
    if !leaf { RekeyedIs(v[i], KeyOf(v[i])); }
  }

  // ----- mdb_page_split -----

  /** The page to split as SplitPoint sees it. */
  function PageOf(v: seq<seq<byte>>, newindx: nat, leaf: bool, pmax: nat): Cut.Page { Cut.Page(Takes(v), newindx, leaf, pmax) }

  lemma TakesPart(v: seq<seq<byte>>, s: nat)
    requires s <= |v|
    ensures Taken(v[..s]) == Cut.Bytes(Takes(v), 0, s) && Taken(v[s..]) == Cut.Bytes(Takes(v), s, |v|)
  {
    hide Takes, Cut.Bytes;
    assert v == v[..s] + v[s..];
    TakesConcat(v[..s], v[s..]);
    Cut.BytesTake(Takes(v), s);
    Cut.BytesDrop(Takes(v), s);
  }

  lemma KeylessTaken(v: seq<seq<byte>>)
    requires AreNodes(v, false) && v != []
    ensures Taken(Coming(v, false, [])) == Cut.HEADER + Taken(v[1..])
  {
    TakenBoth([WithKey(v[0], [])], v[1..]);
    TakenOne([], WithKey(v[0], []));
    assert [] + [WithKey(v[0], [])] == [WithKey(v[0], [])] && Taken([]) == 0;
  }

  /** A branch node without a key is left as it is. */
  lemma LeftAsIs(v: seq<seq<byte>>, leaf: bool)
    requires AreNodes(v, leaf) && (!leaf && v != [] ==> |v[0]| == NODESIZE)
    ensures Coming(v, leaf, []) == v
  {
    if !leaf && v != [] {
      NodeParts(v[0], leaf);
      RekeyedIs(v[0], []);
    }
  }

  /** The split point is right if and only if both halves fit a page. */
  lemma HalvesFit(v: seq<seq<byte>>, newindx: nat, leaf: bool, pmax: nat, s: nat)
    requires AreNodes(v, leaf) && 0 < s < |v| && (!leaf ==> |v[0]| == NODESIZE)
    ensures Cut.BothFit(PageOf(v, newindx, leaf, pmax), s) <==>
            Taken(Coming(v[..s], leaf, [])) <= pmax && Taken(Coming(v[s..], leaf, [])) <= pmax
    ensures Coming(v[..s], leaf, []) == v[..s]
  {
    hide Taken, Takes, Cut.Bytes, NodeLen, Even, WithKey;
    TakesPart(v, s);
    LeftAsIs(v[..s], leaf);
    AsLeaf(v[s..]);
    if !leaf {
      KeylessTaken(v[s..]);
      TakesPart(v, s + 1);
      assert v[s..][1..] == v[s + 1..];
    }
  }

  /** Where node i of the page with the new node in place comes from. */
  function Source(i: nat, newindx: nat): int { if i < newindx then i else i - 1 }

  /** The pointers of the page, with a gap for the new node, from place `from` on. */
  predicate Gapped(c: seq<nat>, ps: seq<nat>, newindx: nat, from: nat) {
    |ps| < |c| && forall i :: from <= i <= |ps| && i != newindx ==> 0 <= Source(i, newindx) < |ps| && c[i] == ps[Source(i, newindx)]
  }

  lemma Inserted(s: seq<seq<byte>>, newindx: nat, w: seq<byte>, i: nat)
    requires newindx <= |s| && i <= |s|
    ensures |Insert(s, newindx, w)| == |s| + 1
    ensures Insert(s, newindx, w)[i] == if i == newindx then w else s[Source(i, newindx)]
  {
  }

  lemma InsertedNodes(s: seq<seq<byte>>, newindx: nat, w: seq<byte>, leaf: bool)
    requires newindx <= |s| && AreNodes(s, leaf) && IsNode(w, leaf)
    ensures AreNodes(Insert(s, newindx, w), leaf) && |Insert(s, newindx, w)| == |s| + 1
  {
    hide NodeLen, Insert;
    var t := Insert(s, newindx, w);
    Inserted(s, newindx, w, 0);
    forall i | 0 <= i < |t| ensures IsNode(t[i], leaf) { Inserted(s, newindx, w, i); }
  }

  /** The sizes by which the split point is searched for. */
  method SizesWith(mp: Page, newindx: nat, w: seq<byte>) returns (sizes: seq<nat>)
    requires mp.Valid() && newindx <= mp.NumKeys()
    ensures sizes == Takes(Insert(mp.Nodes(), newindx, w))
  {
    hide Tiled, View, Even, U16, NodeLen, Insert;
    ghost var v := Insert(mp.Nodes(), newindx, w);
    CountsNodes(mp);
    Inserted(mp.Nodes(), newindx, w, newindx);
    var n := mp.NumKeys();
    var i := 0;
    sizes := [];
    while i <= n
      invariant 0 <= i <= n + 1 && |sizes| == i && forall k :: 0 <= k < i ==> sizes[k] == Even(|v[k]|) + 2
    {
      Inserted(mp.Nodes(), newindx, w, i);
      if i == newindx {
        sizes := sizes + [Even(|w|) + 2];
      } else {
        var k := if i < newindx then i else i - 1;
        var node := ReadNode(mp, mp.ptrs[k], k);
        sizes := sizes + [Even(|node|) + 2];
      }
      i := i + 1;
    }
  }

  /** Node i of the page with the new node in place. */
  method NodeToMove(mp: Page, copy: Page, newindx: nat, w: seq<byte>, i: nat, ghost v: seq<seq<byte>>, ghost from: nat)
    returns (x: seq<byte>)
    requires mp.Valid() && newindx <= mp.NumKeys() && v == Insert(mp.Nodes(), newindx, w) && AreNodes(v, mp.leaf)
    requires from <= i <= mp.NumKeys() && Gapped(copy.ptrs[..], mp.ptrs[..mp.NumKeys()], newindx, from)
    ensures i < |v| && x == v[i] && IsNode(x, mp.leaf)
  {
    hide Tiled, View, U16, NodeLen, Insert;
    CountsNodes(mp);
    Inserted(mp.Nodes(), newindx, w, i);
    if i == newindx {
      x := w;
    } else {
      x := ReadNode(mp, copy.ptrs[i], Source(i, newindx));
    }
  }

  lemma HalfAt(v: seq<seq<byte>>, leaf: bool, s: nat, i: nat)
    requires AreNodes(v, leaf) && 0 < s < |v| && i < |v|
    ensures |KeyOf(v[i])| < 0x1_0000
    ensures i < s ==> Coming(v[..s], leaf, [])[i] == Rekeyed(v[i], leaf, if !leaf && i == 0 then [] else KeyOf(v[i]))
    ensures i >= s ==> Coming(v[s..], leaf, [])[i - s] == Rekeyed(v[i], leaf, if !leaf && i == s then [] else KeyOf(v[i]))
  {
    hide NodeLen, Coming, U16, KeyOf, IsNode, WithKey;
    if i < s { NodeKept(v[..s], leaf, [], i); } else { NodeKept(v[s..], leaf, [], i - s); }
  }

  /** A pointer written at place i leaves those after it; written elsewhere, all of them. */
  lemma StillGapped(c: seq<nat>, c': seq<nat>, ps: seq<nat>, newindx: nat, from: nat, same: bool)
    requires Gapped(c, ps, newindx, from) && |c'| == |c| && forall k :: (if same then from else from + 1) <= k < |c| ==> c'[k] == c[k]
    ensures Gapped(c', ps, newindx, if same then from else from + 1)
  {
  }

  /** Node i becomes node j of the half that cur is to hold. */
  method DealOne(mp: Page, cur: Page, copy: Page, newindx: nat, w: seq<byte>, split: nat, i: nat, j: nat,
                 ghost v: seq<seq<byte>>, ghost half: seq<seq<byte>>, ghost pmax: nat, ghost from: nat) returns (ok: bool)
    requires mp.Valid() && cur.leaf == mp.leaf && Footprint(mp) !! Footprint(cur)
    requires newindx <= mp.NumKeys() && v == Insert(mp.Nodes(), newindx, w) && AreNodes(v, mp.leaf)
    requires 0 < split < |v| && from <= i <= mp.NumKeys() && Gapped(copy.ptrs[..], mp.ptrs[..mp.NumKeys()], newindx, from)
    requires if cur == copy then j == i == from else Footprint(cur) !! Footprint(copy)
    requires half == (if i < split then Coming(v[..split], mp.leaf, []) else Coming(v[split..], mp.leaf, []))
    requires j == (if i < split then i else i - split) && Filled(cur, [], half, j, pmax)
    modifies cur, cur.mem, cur.ptrs
    ensures if ok then Filled(cur, [], half, j + 1, pmax) else cur.Valid() && Taken(half) > pmax
    ensures Gapped(copy.ptrs[..], mp.ptrs[..mp.NumKeys()], newindx, if cur == copy then from + 1 else from)
  {
    hide Tiled, View, Even, Taken, U16, NodeLen, Rekeyed, Insert, Coming, Gapped;
    CountsNodes(cur);
    var x := NodeToMove(mp, copy, newindx, w, i, v, from);
    HalfAt(v, mp.leaf, split, i);
    ghost var was := copy.ptrs[..];
    ok := AddNext(cur, x, if !mp.leaf && j == 0 then [] else KeyOf(x), [], half, j, pmax);
    StillGapped(was, copy.ptrs[..], mp.ptrs[..mp.NumKeys()], newindx, from, cur != copy);
  }

  /** The nodes from the split point on go to rp, those before it to a temporary page that begins as a copy
    * of the pointers; these are overwritten behind the place where they are read. */
  method MoveNodes(mp: Page, rp: Page, copy: Page, newindx: nat, w: seq<byte>, split: nat,
                   ghost v: seq<seq<byte>>, ghost pmax: nat) returns (ok: bool)
    requires mp.Valid() && rp.Valid() && copy.Valid() && rp.leaf == copy.leaf == mp.leaf
    requires Footprint(mp) !! Footprint(rp) && Footprint(mp) !! Footprint(copy) && Footprint(rp) !! Footprint(copy)
    requires rp.Nodes() == [] && copy.Nodes() == [] && rp.SizeLeft() == copy.SizeLeft() == pmax
    requires newindx <= mp.NumKeys() && v == Insert(mp.Nodes(), newindx, w) && AreNodes(v, mp.leaf) && 0 < split <= mp.NumKeys()
    requires Gapped(copy.ptrs[..], mp.ptrs[..mp.NumKeys()], newindx, 0)
    modifies rp, rp.mem, rp.ptrs, copy, copy.mem, copy.ptrs
    ensures rp.Valid() && copy.Valid() && |v| == mp.NumKeys() + 1
    ensures var left, right := Coming(v[..split], mp.leaf, []), Coming(v[split..], mp.leaf, []);
      (ok <==> Taken(left) <= pmax && Taken(right) <= pmax) && (ok ==> copy.Nodes() == left && rp.Nodes() == right)
  {
    hide Tiled, View, Even, Taken, U16, NodeLen, Rekeyed, Insert, Coming, Gapped, Filled, AreNodes;
    CountsNodes(mp);
    Inserted(mp.Nodes(), newindx, w, newindx);
    ghost var left, right := Coming(v[..split], mp.leaf, []), Coming(v[split..], mp.leaf, []);
    FilledBegins(rp, right);
    FilledBegins(copy, left);
    var i, j, cur := split, 0, rp;
    while true
      invariant mp.Valid()
      invariant cur == rp ==> split <= i <= mp.NumKeys() && j == i - split
      invariant cur == rp ==> Filled(rp, [], right, j, pmax) && Filled(copy, [], left, 0, pmax)
      invariant cur != rp ==> cur == copy && 0 <= i < split && j == i
      invariant cur != rp ==> Filled(rp, [], right, |right|, pmax) && Filled(copy, [], left, i, pmax)
      invariant Gapped(copy.ptrs[..], mp.ptrs[..mp.NumKeys()], newindx, if cur == rp then 0 else i)
      decreases if cur == rp then mp.NumKeys() + 1 - i + split else split - i
    {
      ok := DealOne(mp, cur, copy, newindx, w, split, i, j, v, if cur == rp then right else left, pmax, if cur == rp then 0 else i);
      if !ok {
        if cur == rp { FilledValid(copy, left, 0, pmax); } else { FilledValid(rp, right, |right|, pmax); }
        return;
      }
      if i == mp.NumKeys() {
        i, j, cur := 0, 0, copy;
      } else {
        i, j := i + 1, j + 1;
      }
      if i == split { break; }
    }
    FilledEnds(rp, right, pmax);
    FilledEnds(copy, left, pmax);
  }

  lemma SameNodes(m: seq<byte>, m': seq<byte>, ps: seq<nat>, upper: nat, leaf: bool)
    requires Tiled(m, ps, upper, leaf) && |m'| == |m| && forall x :: upper <= x < |m| ==> m'[x] == m[x]
    ensures Tiled(m', ps, upper, leaf) && View(m', ps, leaf) == View(m, ps, leaf)
  {
    hide NodeLen, Layout, NodeBytes;
    forall k | 0 <= k < |ps|
      ensures ps[k] + NODESIZE <= |m| && NodeLen(m', ps[k], leaf) == NodeLen(m, ps[k], leaf)
      ensures NodeBytes(m', ps[k], leaf) == NodeBytes(m, ps[k], leaf)
    {
      AddNode(m, ps, upper, leaf, m', k);
    }
    assert Sizes(m', ps, leaf) == Sizes(m, ps, leaf) && View(m', ps, leaf) == View(m, ps, leaf);
  }

  method WritePointers(dst: array<nat>, src: array<nat>, n: nat)
    requires n <= dst.Length && n <= src.Length
    modifies dst
    ensures dst[..n] == old(src[..n])
  {
    var i := 0;
    while i < n
      invariant 0 <= i <= n && src[..n] == old(src[..n])
      invariant forall k :: 0 <= k < i ==> dst[k] == old(src[k])
    {
      dst[i] := src[i];
      i := i + 1;
    }
  }

  /** The temporary page is copied back: pointers, bounds and nodes. */
  method CopyBack(mp: Page, copy: Page)
    requires mp.Valid() && copy.Valid() && mp.leaf == copy.leaf && mp.mem.Length == copy.mem.Length
    requires Footprint(mp) !! Footprint(copy)
    modifies mp, mp.mem, mp.ptrs
    ensures mp.Valid() && mp.Nodes() == copy.Nodes() && mp.SizeLeft() == copy.SizeLeft()
  {
    hide Tiled, View, NodeLen;
    var n := copy.NumKeys();
    ghost var m, ps := copy.mem[..], copy.ptrs[..n];
    UpperEven(m, ps, copy.upper, copy.leaf);
    WritePointers(mp.ptrs, copy.ptrs, n);
    mp.lower, mp.upper := copy.lower, copy.upper;
    WriteBytes(mp.mem, copy.upper, copy.mem[copy.upper..]);
    ghost var m' := mp.mem[..];
    assert mp.ptrs[..n] == ps && m'[copy.upper..] == m[copy.upper..];
    forall x | copy.upper <= x < |m| ensures m'[x] == m[x] {
      assert m'[x] == m'[copy.upper..][x - copy.upper];
    }
    SameNodes(m, m', ps, copy.upper, copy.leaf);
  }

  /** The pointers of the page, with a gap for the new node. */
  method CopyPointers(mp: Page, copy: Page, newindx: nat)
    requires mp.Valid() && copy.Valid() && copy.Nodes() == [] && copy.ptrs != mp.ptrs && mp.NumKeys() < copy.ptrs.Length
    requires newindx <= mp.NumKeys() && copy.ptrs as object != mp.mem as object && copy.ptrs as object != copy.mem as object
    modifies copy.ptrs
    ensures mp.Valid() && copy.Valid() && mp.Nodes() == old(mp.Nodes()) && copy.Nodes() == []
    ensures Gapped(copy.ptrs[..], mp.ptrs[..mp.NumKeys()], newindx, 0)
  {
    hide Tiled, View, NodeLen;
    CountsNodes(copy);
    ghost var c := copy.ptrs[..0];
    var i, j := 0, 0;
    while i < mp.NumKeys()
      invariant 0 <= i <= mp.NumKeys() && j == (if i <= newindx then i else i + 1)
      invariant forall k :: 0 <= k < j && k != newindx ==> 0 <= Source(k, newindx) < mp.NumKeys() && copy.ptrs[k] == mp.ptrs[Source(k, newindx)]
    {
      if i == newindx {
        copy.ptrs[j] := 0;
        j := j + 1;
      }
      copy.ptrs[j] := mp.ptrs[i];
      i, j := i + 1, j + 1;
    }
    assert copy.ptrs[..0] == c;
  }

  lemma RoomForPointer(p: Page)
    requires p.Valid()
    ensures p.NumKeys() < p.ptrs.Length && PAGEHDRSZ <= p.mem.Length
  {
    UpperEven(p.mem[..], p.ptrs[..p.NumKeys()], p.upper, p.leaf);
  }

  lemma SplitInside(p: Cut.Page)
    requires Cut.NeedsSplit(p)
    ensures !p.leaf ==> p.newindx > 0
    ensures |p.sizes| >= 3 && 0 < Cut.SplitIndex(p) < |p.sizes|
    ensures Cut.BothFit(p, Cut.SplitIndex(p)) <==> Cut.Splittable(p)
  {
    Cut.SplitsHaveThreeNodes(p);
    Cut.SplitSucceeds(p);
  }

  /** The page with the new node in place, as SplitPoint sees it. */
  ghost function ToSplit(nodes: seq<seq<byte>>, newindx: nat, w: seq<byte>, leaf: bool, psize: nat): Cut.Page
    requires newindx <= |nodes| && PAGEHDRSZ <= psize
  { PageOf(Insert(nodes, newindx, w), newindx, leaf, psize - PAGEHDRSZ) }

  /** What mdb_page_split is called with: a page that has no room for the node. */
  ghost predicate MustSplit(nodes: seq<seq<byte>>, newindx: nat, w: seq<byte>, leaf: bool, psize: nat) {
    && newindx <= |nodes| && IsNode(w, leaf) && PAGEHDRSZ <= psize && Cut.NeedsSplit(ToSplit(nodes, newindx, w, leaf, psize))
    && (!leaf && nodes != [] ==> |nodes[0]| == NODESIZE)
  }

  /** The page is cut at the split point; that succeeds if and only if both halves fit, which they do if and
    * only if the split point was searched for or the half with the new node is not too large. */
  ghost predicate Decided(p: Cut.Page, split: nat, ok: bool) {
    && |p.sizes| >= 3 && p.newindx < |p.sizes|
    && split == Cut.SplitIndex(p) && (ok <==> Cut.BothFit(p, split)) && (ok <==> Cut.Splittable(p))
  }

  /** All nodes, the new one among them, in two nonempty parts; sep is the key where they are cut, which the
    * first node of a right branch loses. */
  ghost predicate CutAt(nodes: seq<seq<byte>>, newindx: nat, w: seq<byte>, leaf: bool, split: nat,
                        left: seq<seq<byte>>, right: seq<seq<byte>>, sep: seq<byte>)
  {
    && newindx <= |nodes|
    && var v := Insert(nodes, newindx, w);
       && 0 < split < |v| && |v[split]| >= NODESIZE
       && left == v[..split] && right == Coming(v[split..], leaf, []) && sep == KeyOf(v[split])
  }

  lemma CutNonempty(nodes: seq<seq<byte>>, newindx: nat, w: seq<byte>, leaf: bool, split: nat,
                    left: seq<seq<byte>>, right: seq<seq<byte>>, sep: seq<byte>)
    requires CutAt(nodes, newindx, w, leaf, split, left, right, sep)
    ensures left != [] && right != [] && |left| == split && |left| + |right| == |nodes| + 1
  {
    Inserted(nodes, newindx, w, 0);
  }

  /** All nodes together, when a page must be split. */
  lemma AllNodes(nodes: seq<seq<byte>>, newindx: nat, w: seq<byte>, leaf: bool, psize: nat)
    requires MustSplit(nodes, newindx, w, leaf, psize) && AreNodes(nodes, leaf)
    ensures AreNodes(Insert(nodes, newindx, w), leaf) && |Insert(nodes, newindx, w)| == |nodes| + 1 >= 3
    ensures !leaf ==> |Insert(nodes, newindx, w)[0]| == NODESIZE
    ensures var p := ToSplit(nodes, newindx, w, leaf, psize);
      0 < Cut.SplitIndex(p) <= |nodes| && Decided(p, Cut.SplitIndex(p), Cut.BothFit(p, Cut.SplitIndex(p)))
  {
    hide NodeLen, Insert, Cut.SplitIndex, Cut.BothFit, Cut.Splittable;
    InsertedNodes(nodes, newindx, w, leaf);
    Inserted(nodes, newindx, w, 0);
    SplitInside(ToSplit(nodes, newindx, w, leaf, psize));
  }

  /** The new page, and the temporary one with the pointers of the old page. */
  method NewPages(mp: Page, newindx: nat) returns (rp: Page, copy: Page)
    requires mp.Valid() && newindx <= mp.NumKeys()
    ensures rp.Valid() && rp.leaf == mp.leaf && rp.Nodes() == [] && PAGEHDRSZ <= mp.mem.Length
    ensures rp.SizeLeft() == copy.SizeLeft() == mp.mem.Length - PAGEHDRSZ
    ensures copy.Valid() && copy.leaf == mp.leaf && copy.Nodes() == [] && copy.mem.Length == mp.mem.Length
    ensures Gapped(copy.ptrs[..], mp.ptrs[..mp.NumKeys()], newindx, 0)
    ensures fresh(Footprint(rp)) && fresh(Footprint(copy)) && Footprint(rp) !! Footprint(copy)
  {
    hide Tiled, View, Gapped;
    RoomForPointer(mp);
    rp := new Page(mp.mem.Length, mp.leaf, mp.nodemax);
    copy := new Page(mp.mem.Length, mp.leaf, mp.nodemax);
    CopyPointers(mp, copy, newindx);
  }

  /** Everything after the search for the split point. */
  method SplitAt(mp: Page, newindx: nat, w: seq<byte>, split: nat, ghost v: seq<seq<byte>>)
    returns (ok: bool, rp: Page, sep: seq<byte>)
    requires mp.Valid() && newindx <= mp.NumKeys() && 0 < split <= mp.NumKeys() && PAGEHDRSZ <= mp.mem.Length
    requires v == Insert(mp.Nodes(), newindx, w) && AreNodes(v, mp.leaf) && |v| == mp.NumKeys() + 1
    requires !mp.leaf ==> |v[0]| == NODESIZE
    modifies mp, mp.mem, mp.ptrs
    ensures mp.Valid() && rp.Valid() && fresh(Footprint(rp)) && sep == KeyOf(v[split])
    ensures ok <==> Cut.BothFit(PageOf(v, newindx, mp.leaf, mp.mem.Length - PAGEHDRSZ), split)
    ensures ok ==> mp.Nodes() == v[..split] && rp.Nodes() == Coming(v[split..], mp.leaf, [])
    ensures !ok ==> mp.Nodes() == old(mp.Nodes()) && mp.SizeLeft() == old(mp.SizeLeft())
  {
    hide Tiled, View, Even, Taken, U16, NodeLen, Insert, Coming, Gapped, Cut.BothFit;
    var copy: Page;
    rp, copy := NewPages(mp, newindx);
    var x := NodeToMove(mp, copy, newindx, w, split, v, 0);
    sep := KeyOf(x);
    ok := MoveNodes(mp, rp, copy, newindx, w, split, v, mp.mem.Length - PAGEHDRSZ);
    HalvesFit(v, newindx, mp.leaf, mp.mem.Length - PAGEHDRSZ, split);
    if ok { CopyBack(mp, copy); }
  }

  /** mdb_page_split on the bytes of a page, but for the separator's way into the parent: the page and a new
    * one to its right share the nodes; if they do not fit, the page is left as it was. */
  method SplitPage(mp: Page, newindx: nat, w: seq<byte>) returns (ok: bool, rp: Page, sep: seq<byte>, ghost split: nat)
    requires mp.Valid() && MustSplit(mp.Nodes(), newindx, w, mp.leaf, mp.mem.Length)
    modifies mp, mp.mem, mp.ptrs
    ensures mp.Valid() && rp.Valid() && fresh(Footprint(rp))
    ensures newindx <= |old(mp.Nodes())| && PAGEHDRSZ <= mp.mem.Length
    ensures Decided(ToSplit(old(mp.Nodes()), newindx, w, mp.leaf, mp.mem.Length), split, ok)
    ensures ok ==> CutAt(old(mp.Nodes()), newindx, w, mp.leaf, split, mp.Nodes(), rp.Nodes(), sep)
    ensures !ok ==> mp.Nodes() == old(mp.Nodes()) && mp.SizeLeft() == old(mp.SizeLeft())
  {
    hide Tiled, View, Even, Taken, U16, NodeLen, Insert, Coming, Gapped, MustSplit, Cut.BothFit, Cut.NeedsSplit;
    hide Cut.Splittable, Cut.SplitIndex;
    ghost var nodes := mp.Nodes();
    CountsNodes(mp);
    NodesAre(mp);
    RoomForPointer(mp);
    IndexInside(nodes, newindx, w, mp.leaf, mp.mem.Length);
    AllNodes(nodes, newindx, w, mp.leaf, mp.mem.Length);
    ghost var v := Insert(nodes, newindx, w);
    var sizes := SizesWith(mp, newindx, w);
    var s := Cut.FindSplit(Cut.Page(sizes, newindx, mp.leaf, mp.mem.Length - PAGEHDRSZ));
    split := s;
    ok, rp, sep := SplitAt(mp, newindx, w, s, v);
  }

  lemma IndexInside(nodes: seq<seq<byte>>, newindx: nat, w: seq<byte>, leaf: bool, psize: nat)
    requires MustSplit(nodes, newindx, w, leaf, psize)
    ensures newindx <= |nodes| && IsNode(w, leaf) && PAGEHDRSZ <= psize
  {
  }

  // ----- mdb_node_move -----

  lemma ComingIs(v: seq<seq<byte>>, key: seq<byte>)
    requires v != [] && |v[0]| >= NODESIZE && |key| < 0x1_0000
    ensures v[0 := WithKey(v[0], key)] == Coming(v, false, key)
  {
  }

  /** mdb_update_key on the first node of a branch, which gets a key or loses it. */
  method RekeyFirst(p: Page, key: seq<byte>) returns (ok: bool)
    requires p.Valid() && !p.leaf && 0 < p.NumKeys() && |key| < 0x1_0000
    modifies p, p.mem, p.ptrs
    ensures p.Valid() && |old(p.Nodes()[0])| >= NODESIZE
    ensures ok <==> Even(|key|) - Even(|old(p.Nodes()[0])| - NODESIZE) <= old(p.SizeLeft()) || Even(|key|) <= Even(|old(p.Nodes()[0])| - NODESIZE)
    ensures p.Nodes() == if ok then Coming(old(p.Nodes()), false, key) else old(p.Nodes())
    ensures p.SizeLeft() == old(p.SizeLeft()) - (if ok then Even(|key|) - Even(|old(p.Nodes()[0])| - NODESIZE) else 0)
  {
    hide Tiled, View, Even, U16, NodeLen, Coming, WithKey;
    CountsNodes(p);
    NodesAre(p);
    ghost var v := p.Nodes();
    ComingIs(v, key);
    ok := p.UpdateKey(0, key);
  }

  /** The node that a move takes. */
  function Mover(src: seq<seq<byte>>, fromLeft: bool): seq<byte>
    requires src != []
  { if fromLeft then src[|src| - 1] else src[0] }

  /** The bytes that a move takes of the target: the node, and a key for the old first node of a branch. */
  function MoveTakes(x: seq<byte>, leaf: bool, fromLeft: bool, low: seq<byte>): nat
    requires |x| >= NODESIZE && |low| < 0x1_0000
  { if fromLeft then Even(|x|) + 2 + (if leaf then 0 else Even(|low|)) else Even(|Rekeyed(x, leaf, low)|) + 2 }

  ghost predicate MoveFits(src: seq<seq<byte>>, leaf: bool, fromLeft: bool, low: seq<byte>, room: int) {
    src != [] && |Mover(src, fromLeft)| >= NODESIZE && |low| < 0x1_0000 && MoveTakes(Mover(src, fromLeft), leaf, fromLeft, low) <= room
  }

  /** What a move does to two pages; `low` is the lowest key below the right one of them. */
  ghost predicate Shifted(src: seq<seq<byte>>, dst: seq<seq<byte>>, leaf: bool, fromLeft: bool, low: seq<byte>,
                          src': seq<seq<byte>>, dst': seq<seq<byte>>, sep: seq<byte>)
  {
    && |src| >= 2 && |low| < 0x1_0000 && |src[0]| >= NODESIZE && |src[1]| >= NODESIZE && |src[|src| - 1]| >= NODESIZE
    && if fromLeft then
         && src' == src[..|src| - 1] && sep == KeyOf(src[|src| - 1])
         && dst' == Coming([src[|src| - 1]] + Coming(dst, leaf, low), leaf, [])
       else
         && src' == Coming(src[1..], leaf, []) && sep == KeyOf(src[1])
         && dst' == dst + [Rekeyed(src[0], leaf, low)]
  }

  lemma ShiftedFirst(v: seq<seq<byte>>, d: seq<seq<byte>>, leaf: bool, low: seq<byte>, room: int)
    requires AreNodes(v, leaf) && |v| >= 2 && |low| < 0x1_0000
    ensures |v[0]| >= NODESIZE && |v[1]| >= NODESIZE
    ensures Shifted(v, d, leaf, false, low, Coming(v[1..], leaf, []), d + [Rekeyed(v[0], leaf, low)], KeyOf(v[1]))
    ensures MoveFits(v, leaf, false, low, room) <==> Even(|Rekeyed(v[0], leaf, low)|) + 2 <= room
  {
  }

  lemma ShiftedLast(v: seq<seq<byte>>, d: seq<seq<byte>>, leaf: bool, low: seq<byte>, room: int)
    requires AreNodes(v, leaf) && |v| >= 2 && |low| < 0x1_0000
    ensures |v[|v| - 1]| >= NODESIZE
    ensures Shifted(v, d, leaf, true, low, v[..|v| - 1], Coming([v[|v| - 1]] + Coming(d, leaf, low), leaf, []), KeyOf(v[|v| - 1]))
    ensures MoveFits(v, leaf, true, low, room) <==> Even(|v[|v| - 1]|) + 2 + (if leaf then 0 else Even(|low|)) <= room
  {
  }

  /** The first node of src becomes the last of dst. */
  method MoveFirst(src: Page, dst: Page, low: seq<byte>) returns (ok: bool, sep: seq<byte>)
    requires src.Valid() && dst.Valid() && src.leaf == dst.leaf && Footprint(src) !! Footprint(dst)
    requires 2 <= src.NumKeys() && |low| < 0x1_0000
    modifies src, src.mem, src.ptrs, dst, dst.mem, dst.ptrs
    ensures src.Valid() && dst.Valid() && (ok <==> old(MoveFits(src.Nodes(), src.leaf, false, low, dst.SizeLeft())))
    ensures ok ==> Shifted(old(src.Nodes()), old(dst.Nodes()), src.leaf, false, low, src.Nodes(), dst.Nodes(), sep)
    ensures !ok ==> src.Nodes() == old(src.Nodes())
  {
    hide Tiled, View, Even, U16, NodeLen, Coming, WithKey, Rekeyed, KeyOf, Shifted, MoveFits, AreNodes, IsNode, Remove;
    hide Page.Valid, Page.Nodes;
    RoomForPointer(src);
    ghost var v := src.Nodes();
    CountsNodes(src);
    NodesAre(src);
    ShiftedFirst(v, dst.Nodes(), src.leaf, low, dst.SizeLeft());
    RemovedEnds(v);
    var x := ReadNode(src, src.ptrs[0], 0);
    RekeyedLeaf(x, src.leaf, low);
    ok := AppendCopy(dst, x, if src.leaf then KeyOf(x) else low);
    sep := [];
    if ok {
      src.Delete(0);
      CountsNodes(src);
      sep := FirstKey(src);
    }
  }

  lemma RekeyedLeaf(x: seq<byte>, leaf: bool, key: seq<byte>)
    requires IsNode(x, leaf) && |key| < 0x1_0000
    ensures |KeyOf(x)| < 0x1_0000 && Rekeyed(x, leaf, if leaf then KeyOf(x) else key) == Rekeyed(x, leaf, key)
  {
    NodeParts(x, leaf);
  }

  /** The key of the first node, for the parent; a branch does not keep it. */
  method FirstKey(p: Page) returns (sep: seq<byte>)
    requires p.Valid() && 0 < p.NumKeys()
    modifies p, p.mem, p.ptrs
    ensures p.Valid() && |old(p.Nodes()[0])| >= NODESIZE && sep == KeyOf(old(p.Nodes()[0]))
    ensures p.Nodes() == Coming(old(p.Nodes()), p.leaf, [])
  {
    hide Tiled, View, Even, U16, NodeLen, Coming, KeyOf;
    CountsNodes(p);
    var y := ReadNode(p, p.ptrs[0], 0);
    sep := KeyOf(y);
    AsLeaf(p.Nodes());
    if !p.leaf {
      NoKeyFits(|y|);
      var ok := RekeyFirst(p, []);
    }
  }

  lemma AsLeaf(v: seq<seq<byte>>)
    ensures Coming(v, true, []) == v
  {
  }

  lemma NoKeyFits(n: nat)
    requires n >= NODESIZE
    ensures Even(0) <= Even(n - NODESIZE)
  {
  }

  /** A node comes before the others, and the old first node of a branch gets a key. */
  method PutInFront(p: Page, x: seq<byte>, low: seq<byte>) returns (ok: bool)
    requires p.Valid() && IsNode(x, p.leaf) && |low| < 0x1_0000
    requires !p.leaf ==> 0 < p.NumKeys() && |p.Nodes()[0]| == NODESIZE
    modifies p, p.mem, p.ptrs
    ensures p.Valid() && (ok <==> Even(|x|) + 2 + (if p.leaf then 0 else Even(|low|)) <= old(p.SizeLeft()))
    ensures ok ==> p.Nodes() == [x] + Coming(old(p.Nodes()), p.leaf, low)
  {
    hide Tiled, View, Even, U16, NodeLen, Coming, WithKey, Rekeyed, KeyOf, Insert;
    ghost var d := p.Nodes();
    CountsNodes(p);
    KeyKept(x, p.leaf);
    RekeyRoom(|low|, p.SizeLeft());
    AsLeafKey(d, low);
    AtFront(Coming(d, p.leaf, low), x);
    ok := true;
    if !p.leaf { ok := RekeyFirst(p, low); }
    if ok { ok := AddCopy(p, 0, x, KeyOf(x)); }
  }

  /** The last node of src becomes the first of dst, whose old first node gets its lowest key in a branch. */
  method MoveLast(src: Page, dst: Page, low: seq<byte>) returns (ok: bool, sep: seq<byte>)
    requires src.Valid() && dst.Valid() && src.leaf == dst.leaf && Footprint(src) !! Footprint(dst)
    requires 2 <= src.NumKeys() && |low| < 0x1_0000
    requires !dst.leaf ==> 0 < dst.NumKeys() && |dst.Nodes()[0]| == NODESIZE
    modifies src, src.mem, src.ptrs, dst, dst.mem, dst.ptrs
    ensures src.Valid() && dst.Valid() && (ok <==> old(MoveFits(src.Nodes(), src.leaf, true, low, dst.SizeLeft())))
    ensures ok ==> Shifted(old(src.Nodes()), old(dst.Nodes()), src.leaf, true, low, src.Nodes(), dst.Nodes(), sep)
    ensures !ok ==> src.Nodes() == old(src.Nodes())
  {
    hide Tiled, View, Even, U16, NodeLen, Coming, WithKey, Rekeyed, KeyOf, Shifted, MoveFits, AreNodes, IsNode, Remove, Insert;
    hide Page.Valid, Page.Nodes;
    RoomForPointer(src);
    ghost var v, d, room := src.Nodes(), dst.Nodes(), dst.SizeLeft();
    CountsNodes(src);
    CountsNodes(dst);
    NodesAre(src);
    ShiftedLast(v, d, src.leaf, low, room);
    RemovedEnds(v);
    var last := src.NumKeys() - 1;
    var x := ReadNode(src, src.ptrs[last], last);
    ok := PutInFront(dst, x, low);
    sep := [];
    if ok {
      src.Delete(last);
      sep := FrontKey(dst, x, Coming(d, src.leaf, low));
    }
  }

  /** The same for a node that has just been put in front. */
  method FrontKey(p: Page, ghost x: seq<byte>, ghost rest: seq<seq<byte>>) returns (sep: seq<byte>)
    requires p.Valid() && p.Nodes() == [x] + rest && |x| >= NODESIZE
    modifies p, p.mem, p.ptrs
    ensures p.Valid() && sep == KeyOf(x) && p.Nodes() == Coming([x] + rest, p.leaf, [])
  {
    hide Tiled, View, Even, U16, NodeLen, Coming, KeyOf;
    CountsNodes(p);
    assert ([x] + rest)[0] == x;
    sep := FirstKey(p);
  }

  lemma KeyKept(x: seq<byte>, leaf: bool)
    requires IsNode(x, leaf)
    ensures |KeyOf(x)| < 0x1_0000 && Rekeyed(x, leaf, KeyOf(x)) == x
  {
    NodeParts(x, leaf);
    if !leaf { RekeyedIs(x, KeyOf(x)); }
  }

  lemma RemovedEnds<T>(v: seq<T>)
    requires v != []
    ensures Remove(v, 0) == v[1..] && Remove(v, |v| - 1) == v[..|v| - 1]
  {
  }

  lemma RekeyRoom(k: nat, room: int)
    ensures room >= 0 ==> (Even(k) - Even(0) <= room || Even(k) <= Even(0) <==> Even(k) <= room)
  {
  }

  lemma AsLeafKey(v: seq<seq<byte>>, key: seq<byte>)
    requires |key| < 0x1_0000
    ensures Coming(v, true, key) == v
  {
  }

  lemma AtFront<T>(s: seq<T>, x: T)
    ensures Insert(s, 0, x) == [x] + s
  {
  }

  /** mdb_node_move: a page that is short gets a node from its right or from its left neighbour. */
  method MoveNode(src: Page, dst: Page, fromLeft: bool, low: seq<byte>) returns (ok: bool, sep: seq<byte>)
    requires src.Valid() && dst.Valid() && src.leaf == dst.leaf && Footprint(src) !! Footprint(dst)
    requires 2 <= src.NumKeys() && |low| < 0x1_0000
    requires !dst.leaf ==> 0 < dst.NumKeys() && |dst.Nodes()[0]| == NODESIZE
    modifies src, src.mem, src.ptrs, dst, dst.mem, dst.ptrs
    ensures src.Valid() && dst.Valid() && (ok <==> old(MoveFits(src.Nodes(), src.leaf, fromLeft, low, dst.SizeLeft())))
    ensures ok ==> Shifted(old(src.Nodes()), old(dst.Nodes()), src.leaf, fromLeft, low, src.Nodes(), dst.Nodes(), sep)
    ensures !ok ==> src.Nodes() == old(src.Nodes())
  {
    hide MoveFits, Shifted, Tiled, View, NodeLen, Even;
    if fromLeft {
      ok, sep := MoveLast(src, dst, low);
    } else {
      ok, sep := MoveFirst(src, dst, low);
    }
  }
}
