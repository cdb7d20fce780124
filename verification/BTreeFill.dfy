/** How full leaves are when mdb_del is through: one under a quarter is not left beside a neighbour that it could
  * be merged with or borrow from. */
module BTreeFill {
  import opened SplitPoint
  import opened BTree
  import opened BTreeItems
  import opened BTreePut
  import opened BTreeMap
  import opened BTreeRebalance

  /** me_nodemax is the largest even length of which two nodes, with their slots, fit a page. */
  lemma NodemaxIsLargest(env: Env, n: nat)
    requires env.Ok() && n % 2 == 0
    ensures n <= env.Nodemax() <==> 2 * (n + 2) <= env.Pmax()
  {
    var h := env.Pmax() / 2;
    assert h == h / 2 * 2 + h % 2;
  }

  /** At least a quarter of the page is in use. */
  predicate Quarter(env: Env, t: Tree) { 4 * Used(t) >= env.Pmax() }

  lemma DivAtLeast(x: nat, p: nat, k: nat)
    requires p > 0
    ensures x / p >= k <==> x >= k * p
  {
    assert x == x / p * p + x % p;
    if x / p >= k { Product(x / p, k, p); } else { Product(k - 1, x / p, p); assert k * p == (k - 1) * p + p; }
  }

  lemma Product(a: nat, b: nat, p: nat)
    requires a >= b
    ensures a * p >= b * p
  {
  }

  lemma QuarterMeans(env: Env, es: seq<Entry>)
    requires env.Ok()
    ensures NeedsNothing(env, Leaf(es)) <==> Quarter(env, Leaf(es))
    ensures CanLend(env, Leaf(es)) <==> Quarter(env, Leaf(es)) && |es| >= 2
  {
    DivAtLeast(1000 * LeafUsed(es), env.Pmax(), 250);
    NoBytes(LeafSizes([]), 0);
  }

  /** Leaf i of a branch was left with the entries es.  The first leaf looks at its right neighbour, any other
    * at its left one.  A leaf at least a quarter full stays; one that is less full gets one entry if the
    * neighbour is a quarter full and has two; otherwise the two become one leaf. */
  predicate Refilled(env: Env, kids: seq<Tree>, i: nat, es: seq<Entry>, res: Del) {
    && i < |kids| && |kids| >= 2
    && var n := if i == 0 then kids[1] else kids[i - 1];
       n.Leaf? &&
       if Quarter(env, Leaf(es)) then res.Settled? && res.t.Branch? && res.t.kids == kids[i := Leaf(es)]
       else if Quarter(env, n) && |n.es| >= 2 then
         Lent(kids, i, es, n.es, res)
       else
         res.Failed? || (res.Changed? && res.t.Branch? && res.t.kids ==
           if i == 0 then [Leaf(es + n.es)] + kids[2..] else kids[..i - 1] + [Leaf(n.es + es)] + kids[i + 1..])
  }

  /** The entry next to the leaf has moved into it; the longer separator may have split the branch. */
  predicate Lent(kids: seq<Tree>, i: nat, es: seq<Entry>, from: seq<Entry>, res: Del)
    requires i < |kids| && |kids| >= 2 && |from| >= 2
  {
    var now := if i == 0 then kids[0 := Leaf(es + [from[0]])][1 := Leaf(from[1..])]
      else kids[i - 1 := Leaf(from[..|from| - 1])][i := Leaf([from[|from| - 1]] + es)];
    match res
    case Settled(t) => t.Branch? && t.kids == now
    case Grew(a, _, b) => a.Branch? && b.Branch? && a.kids + b.kids == now
    case Changed(_) => false
    case Failed => true
  }

  lemma UpdateKeeps(env: Env, kids: seq<Tree>, seps: seq<Key>, j: nat, sep: Key)
    requires |kids| == |seps| + 1 && j < |seps|
    ensures match UpdateSep(env, kids, seps, j, sep)
      case Settled(t) => t.Branch? && t.kids == kids
      case Grew(a, _, b) => a.Branch? && b.Branch? && a.kids + b.kids == kids
      case Changed(_) => false
      case Failed => true
  {
    hide SplitIndex, BranchUsed, Bytes;
    if |kids| >= 3 {
      var s := SplitIndex(BranchPage(env, seps[j := sep], j + 1));
      if s <= |kids| { CutJoins(kids, s); }
    }
  }

  lemma AfterLeaf(env: Env, kids: seq<Tree>, seps: seq<Key>, i: nat, es: seq<Entry>)
    requires env.Ok() && |kids| == |seps| + 1 && |kids| >= 2 && i < |kids| && forall j :: 0 <= j < |kids| ==> kids[j].Leaf?
    ensures AtDepth(Leaf(es), 0) && forall j :: 0 <= j < |kids| ==> AtDepth(kids[j], 0)
    ensures Refilled(env, kids, i, es, AfterChange(env, kids, seps, i, Leaf(es), 0))
  {
    hide UpdateSep, LeafUsed, NeedsNothing, CanLend, Quarter;
    var n := if i == 0 then kids[1] else kids[i - 1];
    QuarterMeans(env, es);
    QuarterMeans(env, n.es);
    var k := kids[i := Leaf(es)];
    if !Quarter(env, Leaf(es)) && Quarter(env, n) && |n.es| >= 2 {
      var j := if i == 0 then 0 else i - 1;
      var m := if i == 0 then MoveFromRight(k[0], k[1]) else MoveFromLeft(k[j], k[i]);
      UpdateKeeps(env, k[j := m.a][j + 1 := m.b], seps, j, m.sep);
    }
  }

  /** What a deletion leaves of the branch above the leaf with the key, at whatever depth the two are. */
  lemma DeletionRefills(env: Env, kids: seq<Tree>, seps: seq<Key>, r: real)
    requires env.Ok() && Wf(env, Branch(kids, seps), 1) && Shaped(Branch(kids, seps), 1) && |kids| >= 2
    requires Has(Items(kids[ChildIndex(seps, r)]), r)
    ensures var i := ChildIndex(seps, r);
      var was := Items(kids[i]);
      Refilled(env, kids, i, RemoveAt(was, Pos(was, r)), DelIn(env, Branch(kids, seps), 1, r))
  {
    hide Refilled, AfterChange, Pos, Has, Apart, LeafOk;
    var i := ChildIndex(seps, r);
    var was := Items(kids[i]);
    assert forall j :: 0 <= j < |kids| ==> kids[j].Leaf?;
    HasMeans(was, r);
    AfterLeaf(env, kids, seps, i, RemoveAt(was, Pos(was, r)));
  }
}
