/** What the bytes of a page mean: a page decodes to a node of the tree, and splitting, merging and moving
  * on bytes is splitting, merging and moving on trees. */
module PageDecode {
  import S = SlottedPage
  import P = PageMoves
  import Cut = SplitPoint
  import B = BTree

  type Nodes = seq<seq<S.byte>>

  /** How keys are compared, what stored data stands for (with its flags), and the tree below each page. */
  datatype Coding = Coding(rank: seq<S.byte> -> real, ident: (seq<S.byte>, nat) -> int, child: nat -> B.Tree)

  function KeyFrom(c: Coding, key: seq<S.byte>): B.Key { B.Key(c.rank(key), |key|) }

  /** A leaf node: NODEDSZ is in the header, and F_BIGDATA says that only a page number is stored. */
  function EntryOf(c: Coding, w: seq<S.byte>): B.Entry
    requires |w| >= S.NODESIZE
  {
    B.Entry(KeyFrom(c, P.KeyOf(w)), B.Data(c.ident(P.StoredOf(w), S.U16(w, 4)), S.U16(w, 0) + 0x1_0000 * S.U16(w, 2)),
            S.U16(w, 4) % 2 == 1)
  }

  /** NODEPGNO of a branch node. */
  function PageNo(w: seq<S.byte>): nat
    requires |w| >= S.NODESIZE
  { S.U16(w, 0) + 0x1_0000 * S.U16(w, 2) + 0x1_0000_0000 * S.U16(w, 4) }

  predicate Whole(v: Nodes) { forall i :: 0 <= i < |v| ==> |v[i]| >= S.NODESIZE }

  function Entries(c: Coding, v: Nodes): (es: seq<B.Entry>)
    requires Whole(v)
    ensures |es| == |v| && forall i :: 0 <= i < |v| ==> es[i] == EntryOf(c, v[i])
  { seq(|v|, i requires 0 <= i < |v| => EntryOf(c, v[i])) }

  function Kids(c: Coding, v: Nodes): (kids: seq<B.Tree>)
    requires Whole(v)
    ensures |kids| == |v| && forall i :: 0 <= i < |v| ==> kids[i] == c.child(PageNo(v[i]))
  { seq(|v|, i requires 0 <= i < |v| => c.child(PageNo(v[i]))) }

  function Seps(c: Coding, v: Nodes): (seps: seq<B.Key>)
    requires Whole(v) && v != []
    ensures |seps| == |v| - 1 && forall i :: 0 < i < |v| ==> seps[i - 1] == KeyFrom(c, P.KeyOf(v[i]))
  { seq(|v| - 1, i requires 0 <= i < |v| - 1 => KeyFrom(c, P.KeyOf(v[i + 1]))) }

  /** A branch page has nodes, and the first has no key. */
  predicate Proper(v: Nodes, leaf: bool) { P.AreNodes(v, leaf) && (!leaf ==> v != [] && |v[0]| == S.NODESIZE) }

  function Decode(c: Coding, v: Nodes, leaf: bool): B.Tree
    requires Whole(v) && (!leaf ==> v != [])
  { if leaf then B.Leaf(Entries(c, v)) else B.Branch(Kids(c, v), Seps(c, v)) }

  // ----- Sizes -----

  lemma NodeTakes(c: Coding, w: seq<S.byte>, leaf: bool)
    requires P.IsNode(w, leaf)
    ensures |w| >= S.NODESIZE && |P.KeyOf(w)| == S.U16(w, 6)
    ensures S.Even(|w|) + 2 == if leaf then B.EntrySize(EntryOf(c, w)) else B.SepSize(KeyFrom(c, P.KeyOf(w)))
  {
  }

  /** The bytes that nodes take on a page are those that the tree counts. */
  lemma SizesDecode(c: Coding, v: Nodes, leaf: bool)
    requires Proper(v, leaf)
    ensures Whole(v) && P.Taken(v) == B.Used(Decode(c, v, leaf))
    ensures P.Takes(v) == if leaf then B.LeafSizes(Entries(c, v)) else B.BranchSizes(Seps(c, v))
  {
    hide P.KeyOf, P.StoredOf, S.NodeLen, S.Even, B.EntrySize, B.SepSize, EntryOf;
    forall i | 0 <= i < |v|
      ensures |v[i]| >= S.NODESIZE
      ensures S.Even(|v[i]|) + 2 == if leaf then B.EntrySize(EntryOf(c, v[i])) else B.SepSize(KeyFrom(c, P.KeyOf(v[i])))
    {
      NodeTakes(c, v[i], leaf);
    }
    EvenHeader();
    if leaf {
      assert P.Takes(v) == B.LeafSizes(Entries(c, v));
    } else {
      assert P.Takes(v) == B.BranchSizes(Seps(c, v));
    }
  }

  lemma EvenHeader()
    ensures S.Even(S.NODESIZE) + 2 == Cut.HEADER
  {
  }

  lemma {:induction false} SumBytes(s: seq<nat>, t: seq<nat>, n: nat)
    requires n <= |s| == |t| && forall i :: 0 <= i < |s| ==> t[i] == s[i] + 2
    ensures Cut.Bytes(t, 0, n) == S.Sum(s[..n]) + 2 * n
  {
    if n > 0 {
      SumBytes(s, t, n - 1);
      assert s[..n][..n - 1] == s[..n - 1];
    }
  }

  /** The room on a page is what the tree counts as unused. */
  lemma RoomDecodes(c: Coding, p: S.Page)
    requires p.Valid() && Proper(p.Nodes(), p.leaf)
    ensures Whole(p.Nodes()) && p.SizeLeft() == p.mem.Length - S.PAGEHDRSZ - B.Used(Decode(c, p.Nodes(), p.leaf))
  {
    hide Proper, Decode, B.Used, S.Sum, Cut.Bytes, S.NodeLen, S.Layout;
    SizesDecode(c, p.Nodes(), p.leaf);
    var s := S.Sizes(p.mem[..], p.ptrs[..p.NumKeys()], p.leaf);
    S.SizeLeftExact(p);
    P.CountsNodes(p);
    NodesTake(p.mem[..], p.ptrs[..p.NumKeys()], p.upper, p.leaf);
    SumBytes(s, P.Takes(p.Nodes()), p.NumKeys());
    assert s[..p.NumKeys()] == s;
  }

  lemma NodesTake(m: seq<S.byte>, ps: seq<nat>, upper: nat, leaf: bool)
    requires S.Tiled(m, ps, upper, leaf)
    ensures S.Headers(m, ps) && |S.View(m, ps, leaf)| == |S.Sizes(m, ps, leaf)| == |ps|
    ensures forall i :: 0 <= i < |ps| ==> P.Takes(S.View(m, ps, leaf))[i] == S.Sizes(m, ps, leaf)[i] + 2
  {
    hide S.NodeLen, S.Layout, S.Even;
    forall i | 0 <= i < |ps| ensures P.Takes(S.View(m, ps, leaf))[i] == S.Sizes(m, ps, leaf)[i] + 2 {
      P.NodeAt(m, ps, upper, leaf, i);
    }
  }

  // ----- One node -----

  lemma InsertDecodes(c: Coding, v: Nodes, i: nat, w: seq<S.byte>, leaf: bool)
    requires Proper(v, leaf) && P.IsNode(w, leaf) && i <= |v| && (!leaf ==> i > 0)
    ensures Proper(S.Insert(v, i, w), leaf) && Whole(v) && Whole(S.Insert(v, i, w))
    ensures Decode(c, S.Insert(v, i, w), leaf) == if leaf then B.Leaf(B.InsertAt(Entries(c, v), i, EntryOf(c, w)))
      else B.Branch(B.InsertAt(Kids(c, v), i, c.child(PageNo(w))), B.InsertAt(Seps(c, v), i - 1, KeyFrom(c, P.KeyOf(w))))
  {
    hide P.KeyOf, P.StoredOf, S.NodeLen, EntryOf, PageNo;
    var t := S.Insert(v, i, w);
    if !leaf {
      assert Seps(c, t) == B.InsertAt(Seps(c, v), i - 1, KeyFrom(c, P.KeyOf(w)));
    }
  }

  lemma RemoveDecodes(c: Coding, v: Nodes, i: nat, leaf: bool)
    requires Proper(v, leaf) && i < |v| && (!leaf ==> i > 0)
    ensures Proper(S.Remove(v, i), leaf) && Whole(v) && Whole(S.Remove(v, i))
    ensures Decode(c, S.Remove(v, i), leaf) == if leaf then B.Leaf(B.RemoveAt(Entries(c, v), i))
      else B.Branch(B.RemoveAt(Kids(c, v), i), B.RemoveAt(Seps(c, v), i - 1))
  {
    hide P.KeyOf, P.StoredOf, S.NodeLen, EntryOf, PageNo;
    if !leaf {
      assert Seps(c, S.Remove(v, i)) == B.RemoveAt(Seps(c, v), i - 1);
    }
  }

  lemma RekeyedNode(c: Coding, w: seq<S.byte>, key: seq<S.byte>)
    requires P.IsNode(w, false) && |key| < 0x1_0000
    ensures |w| >= S.NODESIZE && P.IsNode(S.WithKey(w, key), false) && P.KeyOf(S.WithKey(w, key)) == key
    ensures PageNo(S.WithKey(w, key)) == PageNo(w) && |S.WithKey(w, key)| == S.NODESIZE + |key|
  {
    P.RekeyedIs(w, key);
    assert forall k :: 0 <= k < 6 ==> S.WithKey(w, key)[k] == w[k];
  }

  lemma RekeyDecodes(c: Coding, v: Nodes, i: nat, key: seq<S.byte>)
    requires Proper(v, false) && 0 < i < |v| && |key| < 0x1_0000
    ensures |v[i]| >= S.NODESIZE && Whole(v) && Proper(v[i := S.WithKey(v[i], key)], false) && Whole(v[i := S.WithKey(v[i], key)])
    ensures Decode(c, v[i := S.WithKey(v[i], key)], false) == B.Branch(Kids(c, v), Seps(c, v)[i - 1 := KeyFrom(c, key)])
  {
    hide P.KeyOf, P.StoredOf, S.NodeLen, EntryOf, PageNo, S.WithKey;
    RekeyedNode(c, v[i], key);
    var t := v[i := S.WithKey(v[i], key)];
    assert Kids(c, t) == Kids(c, v) && Seps(c, t) == Seps(c, v)[i - 1 := KeyFrom(c, key)];
  }

  // ----- Pages -----

  /** On the way into a page on its left, nodes of a branch are those of the tree below the lowest key. */
  lemma ComingDecodes(c: Coding, v: Nodes, leaf: bool, key: seq<S.byte>)
    requires Proper(v, leaf) || (P.AreNodes(v, leaf) && v != [])
    requires |key| < 0x1_0000
    ensures var r := P.Coming(v, leaf, key);
      P.AreNodes(r, leaf) && Whole(v) && Whole(r) && (leaf ==> r == v) && Kids(c, r) == Kids(c, v)
    ensures !leaf ==> var r := P.Coming(v, leaf, key);
      |r| == |v| && r[1..] == v[1..] && |r[0]| == S.NODESIZE + |key| && P.KeyOf(r[0]) == key && Seps(c, r) == Seps(c, v)
    ensures key == [] ==> Proper(P.Coming(v, leaf, key), leaf)
  {
    hide P.KeyOf, P.StoredOf, S.NodeLen, EntryOf, PageNo, S.WithKey;
    if !leaf {
      RekeyedNode(c, v[0], key);
      var r := P.Coming(v, leaf, key);
      assert r == [S.WithKey(v[0], key)] + v[1..];
      assert forall i :: 0 < i < |v| ==> r[i] == v[i];
    }
  }

  /** mdb_page_split, and the tree operation of the same name, on leaves and branches. */
  function CutTree(env: B.Env, t: B.Tree, newindx: nat): B.Ins
    requires B.NumKeys(t) >= 3 && newindx < B.NumKeys(t) && B.Local(t)
  { if t.Leaf? then B.CutLeaf(env, t.es, newindx) else B.CutBranch(env, t.kids, t.seps, newindx) }

  /** What mdb_page_split made of the nodes v: two pages that decode to the two trees, or none. */
  ghost predicate SplitMeans(c: Coding, v: Nodes, newindx: nat, leaf: bool, psize: nat, ok: bool,
                             left: Nodes, sep: seq<S.byte>, right: Nodes)
  {
    && Proper(v, leaf) && Whole(v) && |v| >= 3 && newindx < |v|
    && (ok ==> Proper(left, leaf) && Whole(left) && left != [] && Proper(right, leaf) && Whole(right) && right != [])
    && CutTree(B.Env(psize), Decode(c, v, leaf), newindx) ==
         if ok then B.Two(Decode(c, left, leaf), KeyFrom(c, sep), Decode(c, right, leaf)) else B.Full
  }

  lemma PartDecodes(c: Coding, v: Nodes, leaf: bool, s: nat)
    requires Proper(v, leaf) && 0 < s < |v|
    ensures Proper(v[..s], leaf) && Whole(v) && Whole(v[..s]) && Whole(v[s..]) && P.AreNodes(v[s..], leaf)
    ensures leaf ==> Proper(v[s..], leaf)
    ensures Entries(c, v[..s]) == Entries(c, v)[..s] && Entries(c, v[s..]) == Entries(c, v)[s..]
    ensures Kids(c, v[..s]) == Kids(c, v)[..s] && Kids(c, v[s..]) == Kids(c, v)[s..]
    ensures Seps(c, v[..s]) == Seps(c, v)[..s - 1] && Seps(c, v[s..]) == Seps(c, v)[s..]
    ensures Seps(c, v)[s - 1] == KeyFrom(c, P.KeyOf(v[s]))
  {
    hide P.KeyOf, P.StoredOf, S.NodeLen, EntryOf, PageNo, KeyFrom;
  }

  lemma CutLeafDecodes(c: Coding, v: Nodes, newindx: nat, psize: nat, s: nat)
    requires Proper(v, true) && |v| >= 3 && newindx < |v| && psize >= S.PAGEHDRSZ
    requires s == Cut.SplitIndex(P.PageOf(v, newindx, true, psize - S.PAGEHDRSZ)) && 0 < s < |v| && |v[s]| >= S.NODESIZE
    ensures SplitMeans(c, v, newindx, true, psize, Cut.BothFit(P.PageOf(v, newindx, true, psize - S.PAGEHDRSZ), s),
      v[..s], P.KeyOf(v[s]), v[s..])
  {
    hide P.KeyOf, KeyFrom, Cut.SplitIndex, Cut.BothFit, B.CutBranch, B.CutLeaf;
    hide Entries, Kids, Seps, Proper, Whole, P.Takes, B.LeafSizes, P.AreNodes;
    SizesDecode(c, v, true);
    PartDecodes(c, v, true, s);
    assert B.LeafPage(B.Env(psize), Entries(c, v), newindx) == P.PageOf(v, newindx, true, psize - S.PAGEHDRSZ);
    LeafIs(B.Env(psize), Entries(c, v), newindx, s);
  }

  lemma LeafIs(env: B.Env, es: seq<B.Entry>, newindx: nat, s: nat)
    requires |es| >= 3 && newindx < |es| && s == Cut.SplitIndex(B.LeafPage(env, es, newindx)) && 0 < s < |es|
    ensures B.CutLeaf(env, es, newindx) ==
      if Cut.BothFit(B.LeafPage(env, es, newindx), s) then B.Two(B.Leaf(es[..s]), es[s].key, B.Leaf(es[s..])) else B.Full
  {
  }

  lemma CutBranchDecodes(c: Coding, v: Nodes, newindx: nat, psize: nat, s: nat)
    requires Proper(v, false) && |v| >= 3 && newindx < |v| && psize >= S.PAGEHDRSZ
    requires s == Cut.SplitIndex(P.PageOf(v, newindx, false, psize - S.PAGEHDRSZ)) && 0 < s < |v| && |v[s]| >= S.NODESIZE
    ensures SplitMeans(c, v, newindx, false, psize, Cut.BothFit(P.PageOf(v, newindx, false, psize - S.PAGEHDRSZ), s),
      v[..s], P.KeyOf(v[s]), P.Coming(v[s..], false, []))
  {
    hide P.KeyOf, P.Coming, KeyFrom, Cut.SplitIndex, Cut.BothFit, B.CutBranch, B.CutLeaf;
    hide Entries, Kids, Seps, Proper, Whole, P.Takes, B.BranchSizes, P.AreNodes;
    SizesDecode(c, v, false);
    PartDecodes(c, v, false, s);
    ComingDecodes(c, v[s..], false, []);
    assert B.BranchPage(B.Env(psize), Seps(c, v), newindx) == P.PageOf(v, newindx, false, psize - S.PAGEHDRSZ);
    BranchIs(B.Env(psize), Kids(c, v), Seps(c, v), newindx, s);
  }

  lemma BranchIs(env: B.Env, kids: seq<B.Tree>, seps: seq<B.Key>, newindx: nat, s: nat)
    requires |kids| == |seps| + 1 && |kids| >= 3 && newindx < |kids|
    requires s == Cut.SplitIndex(B.BranchPage(env, seps, newindx)) && 0 < s < |kids|
    ensures B.CutBranch(env, kids, seps, newindx) == if Cut.BothFit(B.BranchPage(env, seps, newindx), s) then
      B.Two(B.Branch(kids[..s], seps[..s - 1]), seps[s - 1], B.Branch(kids[s..], seps[s..])) else B.Full
  {
  }

  lemma SplitsInside(nodes: Nodes, newindx: nat, w: seq<S.byte>, leaf: bool, psize: nat)
    requires P.MustSplit(nodes, newindx, w, leaf, psize)
    ensures newindx <= |nodes| && P.IsNode(w, leaf) && psize >= S.PAGEHDRSZ && (!leaf ==> newindx > 0)
  {
  }

  /** What mdb_page_split makes of the bytes decodes to what it makes of the tree, success included. */
  lemma SplitDecodes(c: Coding, nodes: Nodes, newindx: nat, w: seq<S.byte>, leaf: bool, psize: nat, split: nat, ok: bool,
                     left: Nodes, right: Nodes, sep: seq<S.byte>)
    requires P.MustSplit(nodes, newindx, w, leaf, psize) && Proper(nodes, leaf) && newindx <= |nodes| && psize >= S.PAGEHDRSZ
    requires P.Decided(P.ToSplit(nodes, newindx, w, leaf, psize), split, ok)
    requires ok ==> P.CutAt(nodes, newindx, w, leaf, split, left, right, sep)
    ensures SplitMeans(c, S.Insert(nodes, newindx, w), newindx, leaf, psize, ok, left, sep, right)
  {
    hide P.KeyOf, P.StoredOf, S.NodeLen, EntryOf, PageNo, KeyFrom, P.Coming, S.WithKey, Cut.SplitIndex, Cut.BothFit, Cut.NeedsSplit;
    hide Cut.Splittable, S.Insert, Decode, CutTree, P.MustSplit;
    var v := S.Insert(nodes, newindx, w);
    SplitsInside(nodes, newindx, w, leaf, psize);
    P.AllNodes(nodes, newindx, w, leaf, psize);
    InsertDecodes(c, nodes, newindx, w, leaf);
    P.NodeParts(v[split], leaf);
    P.AsLeaf(v[split..]);
    if leaf { CutLeafDecodes(c, v, newindx, psize, split); } else { CutBranchDecodes(c, v, newindx, psize, split); }
  }

  /** The nodes of a page decode to t. */
  ghost predicate Shows(c: Coding, v: Nodes, leaf: bool, t: B.Tree) { Proper(v, leaf) && Whole(v) && Decode(c, v, leaf) == t }

  lemma ShowsMeans(c: Coding, v: Nodes, leaf: bool, t: B.Tree)
    requires Shows(c, v, leaf, t)
    ensures t.Leaf? == leaf && B.Local(t) && B.NumKeys(t) == |v| && P.Taken(v) == B.Used(t)
    ensures Proper(v, leaf) && P.AreNodes(v, leaf) && Whole(v)
  {
    SizesDecode(c, v, leaf);
  }

  lemma JoinDecodes(c: Coding, a: Nodes, b: Nodes)
    requires Whole(a) && Whole(b)
    ensures Whole(a + b) && Entries(c, a + b) == Entries(c, a) + Entries(c, b) && Kids(c, a + b) == Kids(c, a) + Kids(c, b)
  {
    hide P.KeyOf, P.StoredOf, EntryOf, PageNo, KeyFrom;
  }

  lemma JoinSeps(c: Coding, a: Nodes, b: Nodes)
    requires Whole(a) && Whole(b) && a != [] && b != [] && Whole(a + b)
    ensures Seps(c, a + b) == Seps(c, a) + [KeyFrom(c, P.KeyOf(b[0]))] + Seps(c, b)
  {
    hide P.KeyOf, KeyFrom;
    assert Whole(a + b) && (a + b)[|a|..] == b;
    var s, t := Seps(c, a + b), Seps(c, a) + [KeyFrom(c, P.KeyOf(b[0]))] + Seps(c, b);
    forall j: nat | j < |s| ensures s[j] == t[j] {
      assert s[j] == KeyFrom(c, P.KeyOf((a + b)[j + 1]));
      if j + 1 > |a| { assert Seps(c, b)[j - |a|] == KeyFrom(c, P.KeyOf(b[j + 1 - |a|])); }
    }
  }

  /** The lowest key below a branch page, which its own first node does not have. */
  predicate LowIs(c: Coding, low: seq<S.byte>, t: B.Tree) {
    |low| < 0x1_0000 && (t.Branch? ==> t.kids != [] && KeyFrom(c, low) == B.Low(t.kids[0]))
  }

  /** The nodes that mdb_page_merge puts together decode to the merged tree node. */
  lemma MergeDecodes(c: Coding, dst: Nodes, src: Nodes, leaf: bool, low: seq<S.byte>, a: B.Tree, b: B.Tree)
    requires Shows(c, dst, leaf, a) && Shows(c, src, leaf, b) && LowIs(c, low, b)
    ensures B.Siblings(a, b) && Shows(c, dst + P.Coming(src, leaf, low), leaf, B.Merged(a, b))
    ensures P.Taken(dst + P.Coming(src, leaf, low)) == B.Used(B.Merged(a, b))
  {
    hide P.KeyOf, P.StoredOf, S.NodeLen, EntryOf, PageNo, KeyFrom, P.Coming, Entries, Kids, Seps, B.Low;
    ComingDecodes(c, src, leaf, low);
    var r := P.Coming(src, leaf, low);
    JoinDecodes(c, dst, r);
    if !leaf { JoinSeps(c, dst, r); }
    ProperJoin(dst, r, leaf);
    ShowsMeans(c, dst + r, leaf, B.Merged(a, b));
  }

  lemma ProperJoin(a: Nodes, b: Nodes, leaf: bool)
    requires Proper(a, leaf) && P.AreNodes(b, leaf)
    ensures Proper(a + b, leaf)
  {
  }

  /** mdb_page_merge joins two tree nodes, and succeeds if and only if they fit one page. */
  method MergeTrees(src: S.Page, dst: S.Page, low: seq<S.byte>, ghost c: Coding, ghost a: B.Tree, ghost b: B.Tree) returns (ok: bool)
    requires src.Valid() && dst.Valid() && src.leaf == dst.leaf && P.Footprint(src) !! P.Footprint(dst)
    requires Shows(c, dst.Nodes(), dst.leaf, a) && Shows(c, src.Nodes(), src.leaf, b) && LowIs(c, low, b)
    modifies dst, dst.mem, dst.ptrs
    ensures dst.Valid() && B.Siblings(a, b)
    ensures ok <==> B.Used(B.Merged(a, b)) <= dst.mem.Length - S.PAGEHDRSZ
    ensures ok ==> Shows(c, dst.Nodes(), dst.leaf, B.Merged(a, b))
  {
    hide P.KeyOf, S.Tiled, S.View, S.NodeLen, EntryOf, P.Coming, Entries, Kids, Seps, B.Low, Decode, B.Merged, B.Used, P.Taken, Proper;
    ShowsMeans(c, dst.Nodes(), dst.leaf, a);
    RoomDecodes(c, dst);
    MergeDecodes(c, dst.Nodes(), src.Nodes(), dst.leaf, low, a, b);
    P.TakenBoth(dst.Nodes(), P.Coming(src.Nodes(), src.leaf, low));
    ok := P.MergePages(src, dst, low);
  }

  lemma ComingTakes(v: Nodes, key: seq<S.byte>)
    requires Proper(v, false) && |key| < 0x1_0000
    ensures P.Taken(P.Coming(v, false, key)) == P.Taken(v) + S.Even(|key|)
  {
    hide P.KeyOf, S.NodeLen, S.U16, P.Taken, S.Even;
    var x, rest := S.WithKey(v[0], key), v[1..];
    FirstTakes(v[0], rest);
    FirstTakes(x, rest);
    assert [v[0]] + rest == v;
    EvenAfter(|key|);
  }

  lemma EvenAfter(n: nat)
    ensures S.Even(S.NODESIZE + n) == S.Even(S.NODESIZE) + S.Even(n)
  {
  }

  lemma OnePart(c: Coding, w: seq<S.byte>)
    requires |w| >= S.NODESIZE
    ensures Whole([w]) && Entries(c, [w]) == [EntryOf(c, w)] && Kids(c, [w]) == [c.child(PageNo(w))] && Seps(c, [w]) == []
  {
  }

  /** mdb_node_move to a page on the left. */
  lemma MoveRightDecodes(c: Coding, src: Nodes, dst: Nodes, leaf: bool, low: seq<S.byte>, src': Nodes, dst': Nodes, sep: seq<S.byte>,
                         x: B.Tree, y: B.Tree)
    requires Shows(c, src, leaf, x) && Shows(c, dst, leaf, y) && LowIs(c, low, x)
    requires P.Shifted(src, dst, leaf, false, low, src', dst', sep)
    ensures B.Siblings(y, x) && B.NumKeys(x) >= 2
    ensures var m := B.MoveFromRight(y, x);
      Shows(c, dst', leaf, m.a) && Shows(c, src', leaf, m.b) && m.sep == KeyFrom(c, sep)
      && m.bytes == P.MoveTakes(src[0], leaf, false, low) + B.Used(y)
  {
    hide P.KeyOf, P.StoredOf, S.NodeLen, S.Even, EntryOf, PageNo, KeyFrom, P.Coming, Entries, Kids, Seps, B.Low, S.WithKey, P.Taken, Proper, Whole, P.AreNodes, P.IsNode;
    ShowsMeans(c, src, leaf, x);
    ShowsMeans(c, dst, leaf, y);
    PartDecodes(c, src, leaf, 1);
    EntryKey(c, src[1]);
    ComingDecodes(c, src[1..], leaf, []);
    assert src[..1] == [src[0]];
    ComingDecodes(c, [src[0]], leaf, low);
    var w := P.Rekeyed(src[0], leaf, low);
    OneComing(src[0], leaf, low);
    OnePart(c, src[0]);
    JoinDecodes(c, dst, [w]);
    if !leaf { JoinSeps(c, dst, [w]); OnePart(c, w); }
    ProperJoin(dst, [w], leaf);
    ShowsMeans(c, dst', leaf, B.MoveFromRight(y, x).a);
    P.TakenOne(dst, w);
  }

  lemma EntryKey(c: Coding, w: seq<S.byte>)
    requires |w| >= S.NODESIZE
    ensures EntryOf(c, w).key == KeyFrom(c, P.KeyOf(w))
  {
  }

  lemma FirstTakes(w: seq<S.byte>, r: Nodes)
    ensures P.Taken([w] + r) == S.Even(|w|) + 2 + P.Taken(r)
  {
    P.TakenBoth([w], r);
    P.TakenOne([], w);
    assert [] + [w] == [w] && P.Taken([]) == 0;
  }

  lemma OneComing(w: seq<S.byte>, leaf: bool, key: seq<S.byte>)
    requires |w| >= S.NODESIZE && |key| < 0x1_0000
    ensures P.Coming([w], leaf, key) == [P.Rekeyed(w, leaf, key)]
  {
  }

  /** mdb_node_move to a page on the right. */
  lemma MoveLeftDecodes(c: Coding, src: Nodes, dst: Nodes, leaf: bool, low: seq<S.byte>, src': Nodes, dst': Nodes, sep: seq<S.byte>,
                        x: B.Tree, y: B.Tree)
    requires Shows(c, src, leaf, x) && Shows(c, dst, leaf, y) && LowIs(c, low, y)
    requires P.Shifted(src, dst, leaf, true, low, src', dst', sep)
    ensures B.Siblings(x, y) && B.NumKeys(x) >= 2
    ensures var m := B.MoveFromLeft(x, y);
      Shows(c, src', leaf, m.a) && Shows(c, dst', leaf, m.b) && m.sep == KeyFrom(c, sep)
      && m.bytes == P.MoveTakes(src[|src| - 1], leaf, true, low) + B.Used(y)
  {
    hide P.KeyOf, P.StoredOf, S.NodeLen, S.Even, EntryOf, PageNo, KeyFrom, P.Coming, Entries, Kids, Seps, B.Low, S.WithKey, P.Taken, Proper, Whole, P.AreNodes, P.IsNode, P.MoveTakes;
    var n := |src| - 1;
    ShowsMeans(c, src, leaf, x);
    ShowsMeans(c, dst, leaf, y);
    PartDecodes(c, src, leaf, n);
    EntryKey(c, src[n]);
    assert src[n..] == [src[n]];
    ComingDecodes(c, dst, leaf, low);
    var r := P.Coming(dst, leaf, low);
    OnePart(c, src[n]);
    JoinDecodes(c, [src[n]], r);
    if !leaf { JoinSeps(c, [src[n]], r); }
    JoinNodes([src[n]], r, leaf);
    ComingDecodes(c, [src[n]] + r, leaf, []);
    MoveLeftTakes(c, src[n], dst, leaf, low);
    ShowsMeans(c, dst', leaf, B.MoveFromLeft(x, y).b);
  }

  lemma JoinNodes(a: Nodes, b: Nodes, leaf: bool)
    requires P.AreNodes(a, leaf) && P.AreNodes(b, leaf)
    ensures P.AreNodes(a + b, leaf)
  {
  }

  lemma MoveLeftTakes(c: Coding, w: seq<S.byte>, dst: Nodes, leaf: bool, low: seq<S.byte>)
    requires P.IsNode(w, leaf) && Proper(dst, leaf) && |low| < 0x1_0000
    ensures |w| >= S.NODESIZE
    ensures var v := P.Coming([w] + P.Coming(dst, leaf, low), leaf, []);
      P.Taken(v) + (if leaf then 0 else B.SepSize(KeyFrom(c, P.KeyOf(w))) - Cut.HEADER) == P.MoveTakes(w, leaf, true, low) + P.Taken(dst)
  {
    hide P.KeyOf, P.StoredOf, S.NodeLen, S.Even, EntryOf, KeyFrom, P.Coming, S.WithKey, P.Taken, B.SepSize;
    var r := P.Coming(dst, leaf, low);
    NodeTakes(c, w, leaf);
    P.AsLeafKey(dst, low);
    P.AsLeaf([w] + r);
    FirstTakes(w, r);
    if !leaf {
      ComingTakes(dst, low);
      FrontTakes(w, r);
    }
  }

  lemma FrontTakes(w: seq<S.byte>, r: Nodes)
    requires |w| >= S.NODESIZE
    ensures P.Taken(P.Coming([w] + r, false, [])) == Cut.HEADER + P.Taken(r)
  {
    var x := S.WithKey(w, []);
    assert ([w] + r)[1..] == r && P.Coming([w] + r, false, []) == [x] + r;
    FirstTakes(x, r);
  }

  /** The outcome of a move between the trees x and y, of which y is short. */
  ghost predicate MovesTo(c: Coding, x: B.Tree, y: B.Tree, fromLeft: bool, psize: nat, ok: bool, src: Nodes, dst: Nodes,
                          leaf: bool, sep: seq<S.byte>)
  {
    && B.Siblings(x, y) && B.NumKeys(x) >= 2
    && var m := if fromLeft then B.MoveFromLeft(x, y) else B.MoveFromRight(y, x);
       && (ok <==> m.bytes <= psize - S.PAGEHDRSZ)
       && (ok ==> Shows(c, src, leaf, if fromLeft then m.a else m.b) && Shows(c, dst, leaf, if fromLeft then m.b else m.a)
                  && m.sep == KeyFrom(c, sep))
  }

  lemma ToSplitProper(nodes: Nodes, newindx: nat, w: seq<S.byte>, leaf: bool, psize: nat)
    requires P.MustSplit(nodes, newindx, w, leaf, psize) && P.AreNodes(nodes, leaf)
    ensures Proper(nodes, leaf) && newindx <= |nodes| && psize >= S.PAGEHDRSZ
  {
    SplitsInside(nodes, newindx, w, leaf, psize);
  }

  lemma RoomShown(c: Coding, p: S.Page, t: B.Tree)
    requires p.Valid() && Shows(c, p.Nodes(), p.leaf, t)
    ensures p.SizeLeft() == p.mem.Length - S.PAGEHDRSZ - B.Used(t)
  {
    hide Decode, Proper;
    ShownFirst(c, p.Nodes(), p.leaf, t);
    RoomDecodes(c, p);
  }

  lemma ShownFirst(c: Coding, v: Nodes, leaf: bool, t: B.Tree)
    requires Shows(c, v, leaf, t)
    ensures Proper(v, leaf) && P.AreNodes(v, leaf) && (!leaf ==> 0 < |v| && |v[0]| == S.NODESIZE)
  {
  }

  lemma LowShort(c: Coding, low: seq<S.byte>, t: B.Tree)
    requires LowIs(c, low, t)
    ensures |low| < 0x1_0000
  {
  }

  lemma MovesDecode(c: Coding, src: Nodes, dst: Nodes, leaf: bool, fromLeft: bool, low: seq<S.byte>, ok: bool,
                    src': Nodes, dst': Nodes, sep: seq<S.byte>, x: B.Tree, y: B.Tree, psize: nat)
    requires Shows(c, src, leaf, x) && Shows(c, dst, leaf, y) && LowIs(c, low, if fromLeft then y else x) && |src| >= 2
    requires ok <==> P.MoveFits(src, leaf, fromLeft, low, psize - S.PAGEHDRSZ - B.Used(y))
    requires ok ==> P.Shifted(src, dst, leaf, fromLeft, low, src', dst', sep)
    ensures MovesTo(c, x, y, fromLeft, psize, ok, src', dst', leaf, sep)
  {
    hide P.Shifted, P.StoredOf, LowIs, Proper, Whole, P.KeyOf, S.WithKey, S.Even, P.Coming, Shows, B.Used, P.AreNodes, B.MoveFromLeft, B.MoveFromRight;
    ShownFirst(c, src, leaf, x);
    LowShort(c, low, if fromLeft then y else x);
    var room := psize - S.PAGEHDRSZ - B.Used(y);
    if fromLeft {
      P.ShiftedLast(src, dst, leaf, low, room);
      MoveLeftDecodes(c, src, dst, leaf, low, src[..|src| - 1], P.Coming([src[|src| - 1]] + P.Coming(dst, leaf, low), leaf, []),
                      P.KeyOf(src[|src| - 1]), x, y);
      if ok { MoveLeftDecodes(c, src, dst, leaf, low, src', dst', sep, x, y); }
    } else {
      P.ShiftedFirst(src, dst, leaf, low, room);
      MoveRightDecodes(c, src, dst, leaf, low, P.Coming(src[1..], leaf, []), dst + [P.Rekeyed(src[0], leaf, low)], P.KeyOf(src[1]), x, y);
      if ok { MoveRightDecodes(c, src, dst, leaf, low, src', dst', sep, x, y); }
    }
  }

  /** mdb_page_split on bytes is mdb_page_split on trees. */
  method SplitTree(mp: S.Page, newindx: nat, w: seq<S.byte>, ghost c: Coding) returns (ok: bool, rp: S.Page, sep: seq<S.byte>)
    requires mp.Valid() && P.MustSplit(mp.Nodes(), newindx, w, mp.leaf, mp.mem.Length)
    modifies mp, mp.mem, mp.ptrs
    ensures mp.Valid() && rp.Valid() && newindx <= |old(mp.Nodes())|
    ensures SplitMeans(c, S.Insert(old(mp.Nodes()), newindx, w), newindx, mp.leaf, mp.mem.Length, ok, mp.Nodes(), sep, rp.Nodes())
    ensures !ok ==> mp.Nodes() == old(mp.Nodes())
  {
    hide *;
    ghost var nodes := mp.Nodes();
    P.NodesAre(mp);
    ToSplitProper(nodes, newindx, w, mp.leaf, mp.mem.Length);
    ghost var split;
    ok, rp, sep, split := P.SplitPage(mp, newindx, w);
    SplitDecodes(c, nodes, newindx, w, mp.leaf, mp.mem.Length, split, ok, mp.Nodes(), rp.Nodes(), sep);
  }

  /** mdb_node_move on bytes is mdb_node_move on trees, and succeeds if and only if the receiving page holds
    * what comes to it. */
  method MoveTree(src: S.Page, dst: S.Page, fromLeft: bool, low: seq<S.byte>, ghost c: Coding, ghost x: B.Tree, ghost y: B.Tree)
    returns (ok: bool, sep: seq<S.byte>)
    requires src.Valid() && dst.Valid() && src.leaf == dst.leaf && P.Footprint(src) !! P.Footprint(dst) && 2 <= src.NumKeys()
    requires Shows(c, src.Nodes(), src.leaf, x) && Shows(c, dst.Nodes(), dst.leaf, y) && LowIs(c, low, if fromLeft then y else x)
    modifies src, src.mem, src.ptrs, dst, dst.mem, dst.ptrs
    ensures src.Valid() && dst.Valid() && MovesTo(c, x, y, fromLeft, dst.mem.Length, ok, src.Nodes(), dst.Nodes(), src.leaf, sep)
    ensures !ok ==> src.Nodes() == old(src.Nodes())
  {
    hide *;
    hide S.Page.Valid, S.Page.Nodes, S.Page.NumKeys, S.Page.SizeLeft;
    ghost var s, d, leaf, room := src.Nodes(), dst.Nodes(), src.leaf, dst.SizeLeft();
    ShownFirst(c, s, leaf, x);
    ShownFirst(c, d, leaf, y);
    P.CountsNodes(src);
    P.CountsNodes(dst);
    RoomShown(c, dst, y);
    LowShort(c, low, if fromLeft then y else x);
    ok, sep := P.MoveNode(src, dst, fromLeft, low);
    MovesDecode(c, s, d, leaf, fromLeft, low, ok, src.Nodes(), dst.Nodes(), sep, x, y, dst.mem.Length);
  }
}
