/** mdb_rebalance and mdb_cursor_del0: deletion keeps the tree well formed and denotes the map without
  * the key; the moves and merges it chooses always fit. */
module BTreeRebalance {
  import opened SplitPoint
  import opened BTree
  import opened BTreeItems
  import opened BTreePut
  import opened BTreeMap
  import opened BTreeDelete

  // ----- Bytes of pages that are short or cannot lend -----

  lemma LeafUsedMember(env: Env, es: seq<Entry>, i: nat)
    requires env.Ok() && LeafOk(env, es) && i < |es|
    ensures LeafUsed([es[i]]) == EntrySize(es[i]) && 2 * EntrySize(es[i]) <= env.Pmax()
  {
    LeafUsedOne(es[i]);
    EntrySizeBounds(env, es[i]);
  }

  lemma LeafOfOne(env: Env, es: seq<Entry>)
    requires env.Ok() && LeafOk(env, es) && |es| <= 1
    ensures 2 * LeafUsed(es) <= env.Pmax()
  {
    if |es| == 1 {
      LeafUsedMember(env, es, 0);
      assert es == [es[0]];
    }
  }

  lemma BelowThreshold(used: nat, pmax: nat, thresh: nat)
    requires pmax > 0 && 1000 * used / pmax < thresh
    ensures 1000 * used < thresh * pmax
  {
    assert 1000 * used == (1000 * used / pmax) * pmax + 1000 * used % pmax;
    assert (1000 * used / pmax) * pmax <= (thresh - 1) * pmax;
  }

  lemma ShortLeaf(env: Env, es: seq<Entry>)
    requires env.Ok() && !NeedsNothing(env, Leaf(es))
    ensures 4 * LeafUsed(es) <= env.Pmax()
  {
    if |es| > 0 { BelowThreshold(LeafUsed(es), env.Pmax(), 250); }
  }

  lemma PoorLeaf(env: Env, es: seq<Entry>)
    requires env.Ok() && LeafOk(env, es) && !CanLend(env, Leaf(es))
    ensures 2 * LeafUsed(es) <= env.Pmax()
  {
    if |es| <= 1 { LeafOfOne(env, es); } else { BelowThreshold(LeafUsed(es), env.Pmax(), 250); }
  }

  lemma NoSeps()
    ensures BranchUsed([]) == HEADER
  {
    assert Bytes(BranchSizes([]), 0, 0) == 0;
  }

  /** A branch of two children or fewer, or with almost no bytes. */
  lemma PoorBranch(env: Env, kids: seq<Tree>, seps: seq<Key>)
    requires env.Ok() && |kids| == |seps| + 1 && forall i :: 0 <= i < |seps| ==> SepOk(seps[i])
    ensures !NeedsNothing(env, Branch(kids, seps)) ==> BranchUsed(seps) <= 32
    ensures !CanLend(env, Branch(kids, seps)) ==> BranchUsed(seps) <= 532
  {
    NoSeps();
    if |seps| == 1 {
      assert seps == [seps[0]];
      BranchUsedOne(seps[0]);
      SepSizeBounds(env, seps[0]);
    }
    if !FilledTo(env, Branch(kids, seps), 1) { BelowThreshold(BranchUsed(seps), env.Pmax(), 1); }
  }

  lemma LowSize(env: Env, d: nat, kids: seq<Tree>, seps: seq<Key>)
    requires env.Ok() && KidsOk(env, d, kids, seps)
    ensures SepSize(Low(kids[0])) <= 522
  {
    LowSeparates(env, kids[0], d);
    SepSizeBounds(env, Low(kids[0]));
  }

  lemma SeparatorsOk(env: Env, d: nat, kids: seq<Tree>, seps: seq<Key>)
    requires KidsOk(env, d, kids, seps)
    ensures |kids| == |seps| + 1 && forall i :: 0 <= i < |seps| ==> SepOk(seps[i])
  {
  }

  // ----- A move -----

  ghost predicate MoveFits(env: Env, d: nat, es: seq<Entry>, m: Moved) {
    MovedOk(env, d, es, m) && m.bytes <= env.Pmax()
  }

  lemma LeafRightFits(env: Env, a: seq<Entry>, sep: Key, b: seq<Entry>)
    requires env.Ok() && LeafOk(env, a) && LeafOk(env, b) && Below(a, sep.rank) && From(b, sep.rank)
    requires !NeedsNothing(env, Leaf(a)) && |b| >= 2
    ensures MoveFits(env, 0, a + b, MoveFromRight(Leaf(a), Leaf(b)))
  {
    hide LeafOk, MovedOk, LeafUsed, NeedsNothing, Below, From;
    ShortLeaf(env, a);
    LeafUsedMember(env, b, 0);
    LeafUsedConcat(a, [b[0]]);
    LeafMoveRight(env, a, sep, b);
    SameMove(env, 0, a + b, MoveFromRight(Leaf(a), Leaf(b)));
  }

  lemma LeafLeftFits(env: Env, a: seq<Entry>, sep: Key, b: seq<Entry>)
    requires env.Ok() && LeafOk(env, a) && LeafOk(env, b) && Below(a, sep.rank) && From(b, sep.rank)
    requires !NeedsNothing(env, Leaf(b)) && |a| >= 2
    ensures MoveFits(env, 0, a + b, MoveFromLeft(Leaf(a), Leaf(b)))
  {
    hide LeafOk, MovedOk, LeafUsed, NeedsNothing, Below, From;
    ShortLeaf(env, b);
    LeafUsedMember(env, a, |a| - 1);
    LeafUsedConcat([a[|a| - 1]], b);
    LeafMoveLeft(env, a, sep, b);
    SameMove(env, 0, a + b, MoveFromLeft(Leaf(a), Leaf(b)));
  }

  lemma BranchRightFits(env: Env, d: nat, ka: seq<Tree>, sa: seq<Key>, sep: Key, kb: seq<Tree>, sb: seq<Key>)
    requires env.Ok() && KidsOk(env, d, ka, sa) && KidsOk(env, d, kb, sb) && |kb| >= 3 && BranchUsed(sb) <= env.Pmax()
    requires Below(Flat(ka), sep.rank) && From(Flat(kb), sep.rank) && !NeedsNothing(env, Branch(ka, sa))
    ensures MoveFits(env, d + 1, Flat(ka) + Flat(kb), MoveFromRight(Branch(ka, sa), Branch(kb, sb)))
  {
    hide Flat, MovedOk, KidsOk, NeedsNothing, BranchUsed, Bytes, Below, From;
    SeparatorsOk(env, d, ka, sa);
    SeparatorsOk(env, d, kb, sb);
    PoorBranch(env, ka, sa);
    LowSize(env, d, kb, sb);
    BranchUsedOne(Low(kb[0]));
    BranchUsedConcat(sa, [Low(kb[0])]);
    BranchMoveRight(env, d, ka, sa, sep, kb, sb);
    SameMove(env, d + 1, Flat(ka) + Flat(kb), MoveFromRight(Branch(ka, sa), Branch(kb, sb)));
  }

  lemma SameMove(env: Env, d: nat, es: seq<Entry>, m: Moved)
    requires MovedOk(env, d, es, m.(bytes := 0))
    ensures MovedOk(env, d, es, m)
  {
  }

  lemma PrependUsed(k: Key, sb: seq<Key>)
    ensures BranchUsed([k] + sb) == SepSize(k) + BranchUsed(sb)
  {
    BranchUsedOne(k);
    BranchUsedConcat([k], sb);
  }

  lemma BranchLeftFits(env: Env, d: nat, ka: seq<Tree>, sa: seq<Key>, sep: Key, kb: seq<Tree>, sb: seq<Key>)
    requires env.Ok() && KidsOk(env, d, ka, sa) && KidsOk(env, d, kb, sb) && |ka| >= 3 && BranchUsed(sa) <= env.Pmax()
    requires Below(Flat(ka), sep.rank) && From(Flat(kb), sep.rank) && !NeedsNothing(env, Branch(kb, sb))
    ensures MoveFits(env, d + 1, Flat(ka) + Flat(kb), MoveFromLeft(Branch(ka, sa), Branch(kb, sb)))
  {
    hide Flat, MovedOk, KidsOk, NeedsNothing, BranchUsed, Bytes, Below, From;
    var n := |ka| - 1;
    SeparatorsOk(env, d, ka, sa);
    SeparatorsOk(env, d, kb, sb);
    PoorBranch(env, kb, sb);
    LowSize(env, d, kb, sb);
    PrependUsed(Low(kb[0]), sb);
    PrependUsed(sa[n - 1], [Low(kb[0])] + sb);
    SepSizeBounds(env, sa[n - 1]);
    BranchMoveLeft(env, d, ka, sa, sep, kb, sb, n);
    SameMove(env, d + 1, Flat(ka) + Flat(kb), MoveFromLeft(Branch(ka, sa), Branch(kb, sb)));
  }

  /** A branch is its children and separators. */
  lemma BranchParts(env: Env, t: Tree, d: nat)
    requires Wf(env, t, d) && t.Branch?
    ensures d > 0 && KidsOk(env, d - 1, t.kids, t.seps) && BranchUsed(t.seps) <= env.Pmax() && Items(t) == Flat(t.kids)
  {
  }

  lemma RightMoveOk(env: Env, d: nat, a: Tree, sep: Key, b: Tree)
    requires env.Ok() && PairOk(env, d, a, sep, b) && Siblings(a, b) && !NeedsNothing(env, a) && CanLend(env, b)
    ensures MoveFits(env, d, Items(a) + Items(b), MoveFromRight(a, b))
  {
    if a.Leaf? {
      LeafRightFits(env, a.es, sep, b.es);
    } else {
      hide MoveFits, MoveFromRight, NeedsNothing, Flat, KidsOk;
      BranchParts(env, a, d);
      BranchParts(env, b, d);
      BranchRightFits(env, d - 1, a.kids, a.seps, sep, b.kids, b.seps);
    }
  }

  lemma LeftMoveOk(env: Env, d: nat, a: Tree, sep: Key, b: Tree)
    requires env.Ok() && PairOk(env, d, a, sep, b) && Siblings(a, b) && !NeedsNothing(env, b) && CanLend(env, a)
    ensures MoveFits(env, d, Items(a) + Items(b), MoveFromLeft(a, b))
  {
    if a.Leaf? {
      LeafLeftFits(env, a.es, sep, b.es);
    } else {
      hide MoveFits, MoveFromLeft, NeedsNothing, Flat, KidsOk;
      BranchParts(env, a, d);
      BranchParts(env, b, d);
      BranchLeftFits(env, d - 1, a.kids, a.seps, sep, b.kids, b.seps);
    }
  }

  // ----- A merge -----

  ghost predicate MergeFits(env: Env, d: nat, es: seq<Entry>, m: Tree) {
    Wf(env, m, d) && Min(m) && Items(m) == es && Used(m) <= env.Pmax()
  }

  /** One of the two is short, and the other one has nothing to lend. */
  predicate MustMerge(env: Env, a: Tree, b: Tree) {
    (!NeedsNothing(env, a) && !CanLend(env, b)) || (!CanLend(env, a) && !NeedsNothing(env, b))
  }

  lemma LeafMergeFits(env: Env, a: seq<Entry>, sep: Key, b: seq<Entry>)
    requires env.Ok() && PairOk(env, 0, Leaf(a), sep, Leaf(b)) && MustMerge(env, Leaf(a), Leaf(b)) && a + b != []
    ensures MergeFits(env, 0, a + b, Merged(Leaf(a), Leaf(b)))
  {
    if !NeedsNothing(env, Leaf(a)) && !CanLend(env, Leaf(b)) {
      ShortLeaf(env, a);
      PoorLeaf(env, b);
    } else {
      PoorLeaf(env, a);
      ShortLeaf(env, b);
    }
    LeafUsedConcat(a, b);
    LeafMergedOk(env, Leaf(a), sep, Leaf(b));
  }

  lemma BranchMergeFits(env: Env, d: nat, ka: seq<Tree>, sa: seq<Key>, sep: Key, kb: seq<Tree>, sb: seq<Key>)
    requires env.Ok() && KidsOk(env, d, ka, sa) && KidsOk(env, d, kb, sb) && |ka| >= 1 && |kb| >= 1
    requires Below(Flat(ka), sep.rank) && From(Flat(kb), sep.rank) && MustMerge(env, Branch(ka, sa), Branch(kb, sb))
    ensures MergeFits(env, d + 1, Flat(ka) + Flat(kb), Merged(Branch(ka, sa), Branch(kb, sb)))
  {
    hide Flat, Wf, NeedsNothing, CanLend;
    PoorBranch(env, ka, sa);
    PoorBranch(env, kb, sb);
    LowSize(env, d, kb, sb);
    UsedOfJoin(sa, Low(kb[0]), sb);
    BranchMergedOk(env, d, ka, sa, sep, kb, sb);
  }

  lemma MergeOk(env: Env, d: nat, a: Tree, sep: Key, b: Tree)
    requires env.Ok() && PairOk(env, d, a, sep, b) && Siblings(a, b) && MustMerge(env, a, b) && (Min(a) || Min(b))
    ensures MergeFits(env, d, Items(a) + Items(b), Merged(a, b))
  {
    if a.Leaf? {
      LeafMergeFits(env, a.es, sep, b.es);
    } else {
      hide MergeFits, MustMerge, Merged, Flat, KidsOk;
      BranchParts(env, a, d);
      BranchParts(env, b, d);
      BranchMergeFits(env, d - 1, a.kids, a.seps, sep, b.kids, b.seps);
    }
  }

  // ----- A longer separator -----

  lemma SplitForSep(env: Env, seps: seq<Key>, j: nat, sep: Key, seps': seq<Key>)
    requires env.Ok() && j < |seps| && SepOk(sep) && SepOk(seps[j]) && seps' == seps[j := sep]
    requires forall i :: 0 <= i < |seps'| ==> SepOk(seps'[i])
    requires BranchUsed(seps) <= env.Pmax() < BranchUsed(seps')
    ensures NeedsSplit(BranchPage(env, seps', j + 1))
  {
    BranchUsedUpdate(seps, j, sep);
    SmallSeps(env, seps');
  }

  lemma TwoKidsFit(env: Env, seps: seq<Key>)
    requires env.Ok() && |seps| == 1 && SepOk(seps[0])
    ensures BranchUsed(seps) <= env.Pmax()
  {
    BranchUsedOne(seps[0]);
    SepSizeBounds(env, seps[0]);
    assert seps == [seps[0]];
  }

  lemma CutForSep(env: Env, d: nat, kids: seq<Tree>, seps: seq<Key>, j: nat, sep: Key, seps': seq<Key>)
    requires env.Ok() && j < |seps| && SepOk(seps[j]) && seps' == seps[j := sep] && KidsOk(env, d, kids, seps')
    requires BranchUsed(seps) <= env.Pmax() < BranchUsed(seps')
    ensures |kids| >= 3 && DelOk(env, d + 1, Flat(kids), AsDel(CutBranch(env, kids, seps', j + 1)))
    ensures AsDel(CutBranch(env, kids, seps', j + 1)).Failed? <==> !Splittable(BranchPage(env, seps', j + 1))
  {
    hide *;
    SeparatorsOk(env, d, kids, seps');
    if |kids| == 2 { TwoKidsFit(env, seps'); }
    assert seps'[j] == sep;
    SplitForSep(env, seps, j, sep, seps');
    CutBranchOk(env, d, kids, seps', j + 1);
    AsDelOk(env, d + 1, Flat(kids), CutBranch(env, kids, seps', j + 1));
    CutFails(env, kids, seps', j + 1);
  }

  lemma SettledDel(env: Env, d: nat, t: Tree)
    ensures Wf(env, t, d) && Min(t) ==> DelOk(env, d, Items(t), Settled(t)) && !Settled(t).Failed?
  {
  }

  lemma CutFails(env: Env, kids: seq<Tree>, seps: seq<Key>, x: nat)
    requires 3 <= |kids| == |seps| + 1 && x < |kids| && NeedsSplit(BranchPage(env, seps, x))
    ensures AsDel(CutBranch(env, kids, seps, x)).Failed? <==> !Splittable(BranchPage(env, seps, x))
  {
    hide Splittable, BothFit, SplitIndex;
    SplitSucceeds(BranchPage(env, seps, x));
  }

  /** A branch has room for a longer separator j, or can be split. */
  predicate RoomForLonger(env: Env, seps: seq<Key>, j: nat, sep: Key)
    requires j < |seps|
  { BranchUsed(seps[j := sep]) <= env.Pmax() || Splittable(BranchPage(env, seps[j := sep], j + 1)) }

  /** The page is split exactly when the longer separator overfills it. */
  lemma UpdateSepCases(env: Env, kids: seq<Tree>, seps: seq<Key>, j: nat, sep: Key)
    requires j < |seps| && |kids| == |seps| + 1 && BranchUsed(seps) <= env.Pmax()
    requires BranchUsed(seps[j := sep]) > env.Pmax() ==> |kids| >= 3
    ensures UpdateSep(env, kids, seps, j, sep) ==
      if BranchUsed(seps[j := sep]) > env.Pmax() then AsDel(CutBranch(env, kids, seps[j := sep], j + 1))
      else Settled(Branch(kids, seps[j := sep]))
  {
    hide CutBranch, BranchUsed;
    BranchUsedUpdate(seps, j, sep);
  }

  lemma LongerCases(env: Env, seps: seq<Key>, j: nat, sep: Key)
    requires j < |seps|
    ensures RoomForLonger(env, seps, j, sep) <==>
      BranchUsed(seps[j := sep]) <= env.Pmax() || Splittable(BranchPage(env, seps[j := sep], j + 1))
  {
    hide BranchUsed, Splittable;
  }

  lemma UpdateSepOk(env: Env, d: nat, kids: seq<Tree>, seps: seq<Key>, j: nat, sep: Key)
    requires env.Ok() && j < |seps| && SepOk(seps[j]) && BranchUsed(seps) <= env.Pmax()
    requires KidsOk(env, d, kids, seps[j := sep]) && |kids| == |seps| + 1
    ensures DelOk(env, d + 1, Flat(kids), UpdateSep(env, kids, seps, j, sep))
    ensures UpdateSep(env, kids, seps, j, sep).Failed? <==> !RoomForLonger(env, seps, j, sep)
  {
    hide *;
    LongerCases(env, seps, j, sep);
    if BranchUsed(seps[j := sep]) > env.Pmax() { CutForSep(env, d, kids, seps, j, sep, seps[j := sep]); }
    UpdateSepCases(env, kids, seps, j, sep);
    if BranchUsed(seps[j := sep]) <= env.Pmax() {
      SettledDel(env, d + 1, Branch(kids, seps[j := sep]));
      HalfOk(env, d, kids, seps[j := sep]);
    }
  }

  // ----- Rebalancing two neighbours -----

  /** A branch all of whose children are well formed but for j and j + 1, one of which may be short. */
  ghost predicate AlmostOk(env: Env, d: nat, kids: seq<Tree>, seps: seq<Key>, j: nat) {
    && |kids| == |seps| + 1 && j < |seps|
    && Apart(Parts(kids), seps) && BranchUsed(seps) <= env.Pmax()
    && (forall i :: 0 <= i < |kids| && i != j && i != j + 1 ==> Wf(env, kids[i], d) && Min(kids[i]))
    && PairOk(env, d, kids[j], seps[j], kids[j + 1])
  }

  lemma UpdateTwo<T>(s: seq<T>, j: nat, a: T, b: T)
    requires j + 1 < |s|
    ensures s[j := a][j + 1 := b] == s[..j] + [a, b] + s[j + 2..]
    ensures s == s[..j] + [s[j], s[j + 1]] + s[j + 2..]
  {
  }

  lemma FlatMoved(kids: seq<Tree>, j: nat, a: Tree, b: Tree)
    requires j + 1 < |kids| && Items(a) + Items(b) == Items(kids[j]) + Items(kids[j + 1])
    ensures Flat(kids[j := a][j + 1 := b]) == Flat(kids)
  {
    UpdateTwo(kids, j, a, b);
    FlatFour(kids[..j], a, b, kids[j + 2..]);
    FlatFour(kids[..j], kids[j], kids[j + 1], kids[j + 2..]);
  }

  lemma FlatFused(kids: seq<Tree>, j: nat, m: Tree)
    requires j + 1 < |kids| && Items(m) == Items(kids[j]) + Items(kids[j + 1])
    ensures Flat(kids[..j] + [m] + kids[j + 2..]) == Flat(kids)
  {
    UpdateTwo(kids, j, m, m);
    FlatThree(kids[..j], m, kids[j + 2..]);
    FlatFour(kids[..j], kids[j], kids[j + 1], kids[j + 2..]);
  }

  lemma PartsMoved(kids: seq<Tree>, j: nat, a: Tree, b: Tree)
    requires j + 1 < |kids|
    ensures Parts(kids[j := a][j + 1 := b]) == Parts(kids)[j := Items(a)][j + 1 := Items(b)]
  {
    PartsReplace(kids, j, a);
    PartsReplace(kids[j := a], j + 1, b);
  }

  lemma MovedKids(env: Env, d: nat, kids: seq<Tree>, seps: seq<Key>, j: nat, m: Moved)
    requires env.Ok() && AlmostOk(env, d, kids, seps, j) && MovedOk(env, d, Items(kids[j]) + Items(kids[j + 1]), m)
    ensures KidsOk(env, d, kids[j := m.a][j + 1 := m.b], seps[j := m.sep])
  {
    NonEmpty(env, m.a, d);
    NonEmpty(env, m.b, d);
    assert Parts(kids)[j] == Items(kids[j]) && Parts(kids)[j + 1] == Items(kids[j + 1]);
    ApartMoved(Parts(kids), seps, j, Items(m.a), m.sep, Items(m.b));
    PartsMoved(kids, j, m.a, m.b);
  }

  lemma MovingOk(env: Env, d: nat, kids: seq<Tree>, seps: seq<Key>, j: nat, m: Moved)
    requires env.Ok() && AlmostOk(env, d, kids, seps, j) && MoveFits(env, d, Items(kids[j]) + Items(kids[j + 1]), m)
    ensures DelOk(env, d + 1, Flat(kids), Moving(env, kids, seps, j, m))
    ensures Moving(env, kids, seps, j, m).Failed? <==> !RoomForLonger(env, seps, j, m.sep)
  {
    hide KidsOk, DelOk, UpdateSep, Flat, RoomForLonger;
    MovedKids(env, d, kids, seps, j, m);
    FlatMoved(kids, j, m.a, m.b);
    UpdateSepOk(env, d, kids[j := m.a][j + 1 := m.b], seps, j, m.sep);
  }

  lemma PartsFused(kids: seq<Tree>, j: nat, m: Tree)
    requires j + 1 < |kids|
    ensures Parts(Fused(kids, j, m)) == Fused(Parts(kids), j, Items(m))
  {
    FusedAt(kids, j, m);
    FusedAt(Parts(kids), j, Items(m));
  }

  lemma FusedKids(env: Env, d: nat, kids: seq<Tree>, seps: seq<Key>, j: nat, m: Tree)
    requires env.Ok() && AlmostOk(env, d, kids, seps, j) && MergeFits(env, d, Items(kids[j]) + Items(kids[j + 1]), m)
    ensures KidsOk(env, d, Fused(kids, j, m), RemoveAt(seps, j))
  {
    assert Parts(kids)[j] == Items(kids[j]) && Parts(kids)[j + 1] == Items(kids[j + 1]);
    ApartFused(Parts(kids), seps, j);
    PartsFused(kids, j, m);
    FusedAt(kids, j, m);
  }

  lemma MergingOk(env: Env, d: nat, kids: seq<Tree>, seps: seq<Key>, j: nat, m: Tree)
    requires env.Ok() && AlmostOk(env, d, kids, seps, j) && MergeFits(env, d, Items(kids[j]) + Items(kids[j + 1]), m)
    ensures DelOk(env, d + 1, Flat(kids), Merging(env, kids, seps, j, m)) && !Merging(env, kids, seps, j, m).Failed?
  {
    hide Flat, Apart;
    FusedKids(env, d, kids, seps, j, m);
    BranchUsedRemove(seps, j);
    FlatFused(kids, j, m);
    BranchWf(env, d, Fused(kids, j, m), RemoveAt(seps, j));
  }

  /** The child that is short, on the side that mdb_rebalance expects. */
  predicate ShortSide(env: Env, a: Tree, b: Tree, fromLeft: bool) {
    if fromLeft then Min(a) && !NeedsNothing(env, b) else !NeedsNothing(env, a) && Min(b)
  }

  lemma PairOfAlmost(env: Env, d: nat, kids: seq<Tree>, seps: seq<Key>, j: nat)
    requires AlmostOk(env, d, kids, seps, j)
    ensures PairOk(env, d, kids[j], seps[j], kids[j + 1])
  {
  }

  lemma LendsTwo(env: Env, t: Tree)
    ensures CanLend(env, t) ==> NumKeys(t) >= 2
  {
  }

  /** A node that is lent takes a new separator along; for that there must be room.  Merging needs none. */
  predicate RoomToBalance(env: Env, kids: seq<Tree>, seps: seq<Key>, j: nat, fromLeft: bool)
    requires |kids| == |seps| + 1 && j < |seps| && Siblings(kids[j], kids[j + 1])
  {
    if fromLeft && CanLend(env, kids[j]) then RoomForLonger(env, seps, j, MoveFromLeft(kids[j], kids[j + 1]).sep)
    else if !fromLeft && CanLend(env, kids[j + 1]) then RoomForLonger(env, seps, j, MoveFromRight(kids[j], kids[j + 1]).sep)
    else true
  }

  lemma BalanceOk(env: Env, d: nat, kids: seq<Tree>, seps: seq<Key>, j: nat, fromLeft: bool)
    requires env.Ok() && |kids| == |seps| + 1 && j < |seps| && AlmostOk(env, d, kids, seps, j) && Siblings(kids[j], kids[j + 1])
    requires ShortSide(env, kids[j], kids[j + 1], fromLeft)
    ensures DelOk(env, d + 1, Flat(kids), Balance(env, kids, seps, j, fromLeft))
    ensures Balance(env, kids, seps, j, fromLeft).Failed? <==> !RoomToBalance(env, kids, seps, j, fromLeft)
  {
    hide RoomForLonger, Apart, Flat, DelOk, MoveFits, MergeFits, Moving, Merging, MoveFromLeft, MoveFromRight, Merged, AlmostOk, PairOk, NeedsNothing, CanLend;
    var a, b := kids[j], kids[j + 1];
    PairOfAlmost(env, d, kids, seps, j);
    LendsTwo(env, a);
    LendsTwo(env, b);
    if fromLeft && CanLend(env, a) {
      LeftMoveOk(env, d, a, seps[j], b);
      MovingOk(env, d, kids, seps, j, MoveFromLeft(a, b));
    } else if !fromLeft && CanLend(env, b) {
      RightMoveOk(env, d, a, seps[j], b);
      MovingOk(env, d, kids, seps, j, MoveFromRight(a, b));
    } else {
      MergeOk(env, d, a, seps[j], b);
      MergingOk(env, d, kids, seps, j, Merged(a, b));
    }
  }

  // ----- A child has changed -----

  lemma PairAfter(env: Env, d: nat, kids: seq<Tree>, seps: seq<Key>, j: nat)
    requires Apart(Parts(kids), seps) && j < |seps|
    requires Wf(env, kids[j], d) && NumKeys(kids[j]) >= MinKeys(kids[j]) - 1
    requires Wf(env, kids[j + 1], d) && NumKeys(kids[j + 1]) >= MinKeys(kids[j + 1]) - 1
    ensures PairOk(env, d, kids[j], seps[j], kids[j + 1])
  {
    hide Wf;
    assert Parts(kids)[j] == Items(kids[j]) && Parts(kids)[j + 1] == Items(kids[j + 1]);
  }

  lemma ApartAfter(kids: seq<Tree>, seps: seq<Key>, i: nat, c: Tree)
    requires Apart(Parts(kids), seps) && i < |kids| && FitsSlot(seps, i, Items(c))
    ensures Apart(Parts(kids[i := c]), seps)
  {
    PartsReplace(kids, i, c);
    ApartReplace(Parts(kids), seps, i, Items(c));
  }

  lemma OthersOk(env: Env, d: nat, kids: seq<Tree>, i: nat, c: Tree, kids': seq<Tree>)
    requires AllOk(env, d, kids) && i < |kids| && kids' == kids[i := c]
    ensures forall x :: 0 <= x < |kids'| && x != i ==> Wf(env, kids'[x], d) && Min(kids'[x])
  {
    hide Wf, Min;
  }

  lemma AlmostAfter(env: Env, d: nat, kids: seq<Tree>, seps: seq<Key>, i: nat, c: Tree, j: nat)
    requires KidsOk(env, d, kids, seps) && BranchUsed(seps) <= env.Pmax() && i < |kids|
    requires Wf(env, c, d) && NumKeys(c) >= MinKeys(c) - 1 && FitsSlot(seps, i, Items(c))
    requires j < |seps| && (i == j || i == j + 1)
    ensures AlmostOk(env, d, kids[i := c], seps, j)
    ensures Min(kids[if i == j then j + 1 else j])
  {
    var kids' := kids[i := c];
    hide Apart, Wf, Min, MinKeys, NumKeys, AllOk, FitsSlot, PairOk;
    OthersOk(env, d, kids, i, c, kids');
    SeparatorsOk(env, d, kids, seps);
    ApartAfter(kids, seps, i, c);
    MinKeysOf(kids[if i == j then j + 1 else j]);
    PairAfter(env, d, kids', seps, j);
  }

  lemma MinKeysOf(t: Tree)
    ensures Min(t) <==> NumKeys(t) >= MinKeys(t)
  {
  }

  predicate RoomAfter(env: Env, kids: seq<Tree>, seps: seq<Key>, i: nat, c: Tree, d: nat)
    requires |kids| == |seps| + 1 && i < |kids| && AtDepth(c, d) && forall j :: 0 <= j < |kids| ==> AtDepth(kids[j], d)
  {
    var kids' := kids[i := c];
    if |kids| == 1 || NeedsNothing(env, c) then true
    else
      var j := if i == 0 then 0 else i - 1;
      assert AtDepth(kids'[j], d) && AtDepth(kids'[j + 1], d);
      RoomToBalance(env, kids', seps, j, i > 0)
  }

  lemma AfterChangeOk(env: Env, d: nat, kids: seq<Tree>, seps: seq<Key>, i: nat, c: Tree)
    requires env.Ok() && KidsOk(env, d, kids, seps) && BranchUsed(seps) <= env.Pmax() && i < |kids| && |kids| >= 2
    requires Wf(env, c, d) && NumKeys(c) >= MinKeys(c) - 1 && FitsSlot(seps, i, Items(c))
    requires AtDepth(c, d) && forall j :: 0 <= j < |kids| ==> AtDepth(kids[j], d)
    ensures DelOk(env, d + 1, Around(kids, i, Items(c)), AfterChange(env, kids, seps, i, c, d))
    ensures AfterChange(env, kids, seps, i, c, d).Failed? <==> !RoomAfter(env, kids, seps, i, c, d)
  {
    FlatUpdate(kids, i, c);
    var j := if i == 0 then 0 else i - 1;
    if NeedsNothing(env, c) {
      MinKeysOf(c);
      ReplaceKidOk(env, d, kids, seps, i, c);
      HalfOk(env, d, kids[i := c], seps);
    } else {
      hide Apart, Flat, DelOk, AlmostOk, Balance, Wf, NeedsNothing, Min, Around, AllOk, RoomToBalance;
      var kids' := kids[i := c];
      AlmostAfter(env, d, kids, seps, i, c, j);
      BalanceOk(env, d, kids', seps, j, i > 0);
    }
  }

  // ----- The recursion -----

  lemma DelMembers(es: seq<Entry>, r: real)
    ensures forall e :: e in DelItems(es, r) ==> e in es
  {
  }

  lemma DelFitsSlot(seps: seq<Key>, i: nat, es: seq<Entry>, r: real)
    requires i <= |seps| && FitsSlot(seps, i, es)
    ensures FitsSlot(seps, i, DelItems(es, r))
  {
    DelMembers(es, r);
  }

  /** Deleting from the child that ChildIndex picks deletes from the whole. */
  lemma DelAround(kids: seq<Tree>, seps: seq<Key>, i: nat, x: seq<Entry>, r: real)
    requires Apart(Parts(kids), seps) && i == ChildIndex(seps, r) && i < |kids| && x == Items(kids[i])
    ensures DelItems(Flat(kids), r) == Around(kids, i, DelItems(x, r)) && FitsSlot(seps, i, DelItems(x, r))
  {
    hide Apart, Flat;
    var a, b := Flat(kids[..i]), Flat(kids[i + 1..]);
    Surroundings(kids, seps, r, i, a, x, b);
    DelBetween(a, x, b, r);
    DelFitsSlot(seps, i, x, r);
  }

  /** What DelIn does with the outcome for child i. */
  function Raise(env: Env, kids: seq<Tree>, seps: seq<Key>, i: nat, below: Del, d: nat): Del
    requires |kids| == |seps| + 1 && i < |kids| && DelLocal(below, d) && forall j :: 0 <= j < |kids| ==> AtDepth(kids[j], d)
  {
    match below
    case Settled(c) => Settled(Branch(kids[i := c], seps))
    case Changed(c) => AfterChange(env, kids, seps, i, c, d)
    case Grew(a, sep, b) => AsDel(PlaceSep(env, kids, seps, i, a, sep, b))
    case Failed => Failed
  }

  /** The branch has room for what a deletion below child i asks of it. */
  predicate RoomToRaise(env: Env, kids: seq<Tree>, seps: seq<Key>, i: nat, below: Del, d: nat)
    requires |kids| == |seps| + 1 && i < |kids| && DelLocal(below, d) && forall j :: 0 <= j < |kids| ==> AtDepth(kids[j], d)
  {
    match below
    case Settled(_) => true
    case Changed(c) => RoomAfter(env, kids, seps, i, c, d)
    case Grew(_, sep, _) => RoomForSep(env, seps, i, sep)
    case Failed => true
  }

  /** Every branch on the way has room for the longer separator or the additional one that it must take,
    * or can be split. */
  predicate RoomToDel(env: Env, t: Tree, d: nat, r: real)
    requires Shaped(t, d)
    decreases d
  {
    match t
    case Leaf(_) => true
    case Branch(kids, seps) =>
      var i := ChildIndex(seps, r);
      KidsAtDepth(kids, seps, d);
      RoomToDel(env, kids[i], d - 1, r) && RoomToRaise(env, kids, seps, i, DelIn(env, kids[i], d - 1, r), d - 1)
  }

  lemma SettledOk(env: Env, d: nat, kids: seq<Tree>, seps: seq<Key>, i: nat, c: Tree)
    requires KidsOk(env, d, kids, seps) && BranchUsed(seps) <= env.Pmax() && i < |kids| && |kids| >= 2
    requires Wf(env, c, d) && Min(c) && FitsSlot(seps, i, Items(c))
    ensures DelOk(env, d + 1, Around(kids, i, Items(c)), Settled(Branch(kids[i := c], seps)))
  {
    FlatUpdate(kids, i, c);
    ReplaceKidOk(env, d, kids, seps, i, c);
    HalfOk(env, d, kids[i := c], seps);
  }

  lemma GrewOk(env: Env, d: nat, kids: seq<Tree>, seps: seq<Key>, i: nat, l: Tree, sep: Key, r: Tree, es: seq<Entry>)
    requires env.Ok() && KidsOk(env, d, kids, seps) && BranchUsed(seps) <= env.Pmax() && i < |kids|
    requires InsOk(env, d, es, Two(l, sep, r)) && FitsSlot(seps, i, es)
    ensures DelOk(env, d + 1, Around(kids, i, es), AsDel(PlaceSep(env, kids, seps, i, l, sep, r)))
    ensures AsDel(PlaceSep(env, kids, seps, i, l, sep, r)).Failed? <==> !RoomForSep(env, seps, i, sep)
  {
    hide Flat, Wf, PlaceSep, DelOk, Around, RoomForSep;
    PlaceSepOk(env, d, kids, seps, i, l, sep, r);
    AsDelOk(env, d + 1, Around(kids, i, es), PlaceSep(env, kids, seps, i, l, sep, r));
    SeparatorsOk(env, d, kids, seps);
    PlaceSepRoom(env, kids, seps, i, l, sep, r);
  }

  lemma RaiseOk(env: Env, d: nat, kids: seq<Tree>, seps: seq<Key>, i: nat, es: seq<Entry>, below: Del)
    requires env.Ok() && KidsOk(env, d, kids, seps) && BranchUsed(seps) <= env.Pmax() && i < |kids| && |kids| >= 2
    requires DelLocal(below, d) && forall j :: 0 <= j < |kids| ==> AtDepth(kids[j], d)
    requires DelOk(env, d, es, below) && FitsSlot(seps, i, es)
    ensures DelOk(env, d + 1, Around(kids, i, es), Raise(env, kids, seps, i, below, d))
    ensures Raise(env, kids, seps, i, below, d).Failed? <==> below.Failed? || !RoomToRaise(env, kids, seps, i, below, d)
  {
    hide RoomAfter, RoomForSep, Apart, Flat, AfterChange, PlaceSep, Around, FitsSlot, KidsOk;
    SeparatorsOk(env, d, kids, seps);
    match below
    case Settled(c) => SettledOk(env, d, kids, seps, i, c);
    case Changed(c) => AfterChangeOk(env, d, kids, seps, i, c);
    case Grew(l, sep, r) => GrewOk(env, d, kids, seps, i, l, sep, r, es);
    case Failed =>
  }

  lemma DelLeafOk(env: Env, es: seq<Entry>, r: real)
    requires LeafOk(env, es) && es != []
    ensures DelOk(env, 0, DelItems(es, r), DelIn(env, Leaf(es), 0, r)) && !DelIn(env, Leaf(es), 0, r).Failed?
  {
    if Has(es, r) { RemovedLeafOk(env, es, Pos(es, r)); }
  }

  lemma DelBranchOk(env: Env, d: nat, kids: seq<Tree>, seps: seq<Key>, i: nat, x: seq<Entry>, r: real, below: Del)
    requires env.Ok() && KidsOk(env, d, kids, seps) && BranchUsed(seps) <= env.Pmax() && |kids| >= 2
    requires i == ChildIndex(seps, r) && i < |kids| && x == Items(kids[i]) && DelOk(env, d, DelItems(x, r), below)
    requires DelLocal(below, d) && forall j :: 0 <= j < |kids| ==> AtDepth(kids[j], d)
    ensures DelOk(env, d + 1, DelItems(Flat(kids), r), Raise(env, kids, seps, i, below, d))
    ensures Raise(env, kids, seps, i, below, d).Failed? <==> below.Failed? || !RoomToRaise(env, kids, seps, i, below, d)
  {
    hide RoomToRaise, Apart, Flat, DelOk, Raise, AllOk;
    DelAround(kids, seps, i, x, r);
    RaiseOk(env, d, kids, seps, i, DelItems(x, r), below);
  }

  lemma KidsAtDepth(kids: seq<Tree>, seps: seq<Key>, d: nat)
    requires Shaped(Branch(kids, seps), d)
    ensures forall j :: 0 <= j < |kids| ==> AtDepth(kids[j], d - 1)
  {
    forall j | 0 <= j < |kids| ensures AtDepth(kids[j], d - 1) { ShapedAtDepth(kids[j], d - 1); }
  }

  lemma DelInRaises(env: Env, kids: seq<Tree>, seps: seq<Key>, d: nat, r: real)
    requires Shaped(Branch(kids, seps), d) && forall j :: 0 <= j < |kids| ==> AtDepth(kids[j], d - 1)
    ensures var i := ChildIndex(seps, r);
      DelIn(env, Branch(kids, seps), d, r) == Raise(env, kids, seps, i, DelIn(env, kids[i], d - 1, r), d - 1)
  {
  }

  lemma RoomToDelIs(env: Env, kids: seq<Tree>, seps: seq<Key>, d: nat, r: real)
    requires Shaped(Branch(kids, seps), d) && forall j :: 0 <= j < |kids| ==> AtDepth(kids[j], d - 1)
    ensures var i := ChildIndex(seps, r);
      RoomToDel(env, Branch(kids, seps), d, r) <==>
        RoomToDel(env, kids[i], d - 1, r) && RoomToRaise(env, kids, seps, i, DelIn(env, kids[i], d - 1, r), d - 1)
  {
    hide RoomToRaise;
  }

  lemma LeafHasRoom(env: Env, es: seq<Entry>, r: real)
    ensures !DelIn(env, Leaf(es), 0, r).Failed? && RoomToDel(env, Leaf(es), 0, r)
  {
  }

  /** Deletion below a page: what is left is well formed and holds the old entries without the key.
    * Only a longer separator can ask for a split; the deletion fails if and only if a branch on the way
    * must take one, has no room, and cannot be split. */
  lemma {:induction false} DelInOk(env: Env, t: Tree, d: nat, r: real)
    requires env.Ok() && Wf(env, t, d) && Shaped(t, d) && Min(t)
    ensures DelOk(env, d, DelItems(Items(t), r), DelIn(env, t, d, r))
    ensures DelIn(env, t, d, r).Failed? <==> !RoomToDel(env, t, d, r)
    decreases d
  {
    hide DelOk, Apart, Raise, RoomToRaise, RoomToDel, AtDepth, Flat, LeafOk, DelItems;
    match t
    case Leaf(es) =>
      DelLeafOk(env, es, r);
      LeafHasRoom(env, es, r);
    case Branch(kids, seps) =>
      var i := ChildIndex(seps, r);
      KidsAtDepth(kids, seps, d);
      RoomToDelIs(env, kids, seps, d, r);
      DelInRaises(env, kids, seps, d, r);
      DelInOk(env, kids[i], d - 1, r);
      DelBranchOk(env, d - 1, kids, seps, i, Items(kids[i]), r, DelIn(env, kids[i], d - 1, r));
  }

  // ----- The root -----

  /** An empty root leaf goes away; a root branch with one child gives way to it. */
  lemma RebalanceRootOk(env: Env, t: Tree, d: nat)
    requires env.Ok() && Wf(env, t, d) && NumKeys(t) >= MinKeys(t) - 1
    ensures DbOk(env, RebalanceRoot(env, t, d)) && DbItems(RebalanceRoot(env, t, d)) == Items(t)
  {
    if NumKeys(t) == 0 {
      BranchOrEmpty(env, t);
    } else if t.Branch? && NumKeys(t) == 1 {
      FlatOne(t.kids[0]);
      assert t.kids == [t.kids[0]];
    }
  }

  lemma BranchOrEmpty(env: Env, t: Tree)
    requires NumKeys(t) == 0 && NumKeys(t) >= MinKeys(t) - 1
    ensures t.Leaf? && Items(t) == [] && !NeedsNothing(env, t)
  {
  }

  predicate RoomToDelete(env: Env, db: Db, k: Key)
    requires DbShaped(db)
  { db.Root? ==> RoomToDel(env, db.t, db.d, k.rank) }

  /** The entry with rank r is gone, and all others are as they were. */
  predicate EntriesDel(was: seq<Entry>, now: seq<Entry>, r: real) {
    var p := Pos(was, r);
    p < |was| && was[p].key.rank == r && now == was[..p] + was[p + 1..]
  }

  lemma DelIsEntries(es: seq<Entry>, r: real)
    requires SortedEntries(es) && r in Contents(es)
    ensures EntriesDel(es, DelItems(es, r), r)
  {
    ContentsAt(es, r);
  }

  /** mdb_del: a well-formed database without the entry and with all others as they were, so that it denotes
    * the map without the key; MDB_NOTFOUND if and only if the key is not there; MDB_PAGE_FULL if and only if a branch on the way must take a longer separator, has
    * no room, and cannot be split. */
  lemma DeleteCorrect(env: Env, db: Db, k: Key)
    requires env.Ok() && DbOk(env, db) && DbShaped(db)
    ensures match Delete(env, db, k)
      case Ok(db') => k.size > 0 && k.rank in Map(db) && RoomToDelete(env, db, k)
        && DbOk(env, db') && DbShaped(db') && Map(db') == Map(db) - {k.rank}
        && EntriesDel(DbItems(db), DbItems(db'), k.rank)
      case BadValSize => k.size == 0
      case NotFound => k.size > 0 && k.rank !in Map(db)
      case PageFull => k.size > 0 && k.rank in Map(db) && !RoomToDelete(env, db, k)
  {
    hide RoomToDel, EntriesDel, DelItems;
    if k.size > 0 && db.Root? {
      GetCorrect(env, db, k);
      ItemsSorted(env, db.t, db.d);
      if k.rank in Map(db) { DelIsEntries(DbItems(db), k.rank); }
      if k.rank in Map(db) { DeletedOk(env, db.t, db.d, k.rank, DelIn(env, db.t, db.d, k.rank)); }
    }
  }

  /** The database that an outcome for the root page leaves. */
  function AfterRoot(env: Env, d: nat, res: Del): Db {
    match res
    case Settled(t) => Root(t, d)
    case Changed(t) => RebalanceRoot(env, t, d)
    case Grew(l, sep, r) => Joined(l, sep, r, d)
    case Failed => NoRoot
  }

  lemma AfterRootOk(env: Env, d: nat, es: seq<Entry>, res: Del)
    requires env.Ok() && DelOk(env, d, es, res) && !res.Failed?
    ensures DbOk(env, AfterRoot(env, d, res)) && DbItems(AfterRoot(env, d, res)) == es
  {
    match res
    case Settled(t) =>
    case Changed(t) => RebalanceRootOk(env, t, d);
    case Grew(l, sep, r) => JoinedOk(env, l, sep, r, d);
  }

  lemma DeletedOk(env: Env, t: Tree, d: nat, r: real, res: Del)
    requires env.Ok() && Wf(env, t, d) && Shaped(t, d) && Min(t) && res == DelIn(env, t, d, r)
    ensures var db' := AfterRoot(env, d, res);
      !res.Failed? ==> DbOk(env, db') && DbShaped(db') && Map(db') == Map(Root(t, d)) - {r} && DbItems(db') == DelItems(Items(t), r)
    ensures res.Failed? <==> !RoomToDel(env, t, d, r)
  {
    hide RoomToDel, DelIn, Contents, DelOk, DelItems;
    DelInOk(env, t, d, r);
    ItemsSorted(env, t, d);
    DelContents(Items(t), r);
    if !res.Failed? {
      AfterRootOk(env, d, DelItems(Items(t), r), res);
      DbOkShaped(env, AfterRoot(env, d, res));
    }
  }

  /** Pages with fewer than 32 nodes can always be split. */
  lemma {:induction false} FewCanDelete(env: Env, t: Tree, d: nat, r: real)
    requires Shaped(t, d) && FewNodes(t, d, r)
    ensures RoomToDel(env, t, d, r)
    decreases d
  {
    if t.Branch? {
      var i := ChildIndex(t.seps, r);
      KidsAtDepth(t.kids, t.seps, d);
      FewCanDelete(env, t.kids[i], d - 1, r);
    }
  }

  /** Deleting a key that is there succeeds if the pages on the way to it have fewer than 32 nodes. */
  lemma DeleteNeverFull(env: Env, db: Db, k: Key)
    requires env.Ok() && DbOk(env, db) && DbShaped(db) && k.size > 0 && k.rank in Map(db)
    requires db.Root? ==> FewNodes(db.t, db.d, k.rank)
    ensures Delete(env, db, k).Ok?
  {
    if db.Root? { FewCanDelete(env, db.t, db.d, k.rank); }
    DeleteCorrect(env, db, k);
  }

  // ----- Runs -----

  datatype Op = PutOp(k: Key, v: Data, reuse: bool) | DelOp(k: Key)

  function Apply(env: Env, db: Db, op: Op): Result<Db>
    requires DbShaped(db)
  {
    match op
    case PutOp(k, v, reuse) => Put(env, db, k, v, reuse)
    case DelOp(k) => Delete(env, db, k)
  }

  /** What an operation that succeeds does to a map. */
  function Effect(m: map<real, Data>, op: Op): map<real, Data> {
    match op
    case PutOp(k, v, _) => m[k.rank := v]
    case DelOp(k) => m - {k.rank}
  }

  lemma ApplyOk(env: Env, db: Db, op: Op)
    requires env.Ok() && DbOk(env, db) && DbShaped(db)
    ensures Apply(env, db, op).Ok? ==> DbOk(env, Apply(env, db, op).value) && DbShaped(Apply(env, db, op).value)
    ensures Apply(env, db, op).Ok? ==> Map(Apply(env, db, op).value) == Effect(Map(db), op)
  {
    match op
    case PutOp(k, v, reuse) => PutCorrect(env, db, k, v, reuse);
    case DelOp(k) => DeleteCorrect(env, db, k);
  }

  ghost predicate Good(env: Env, db: Db) { env.Ok() && DbOk(env, db) && DbShaped(db) }

  lemma ApplyGood(env: Env, db: Db, op: Op)
    requires Good(env, db)
    ensures DbShaped(db) && (Apply(env, db, op).Ok? ==> Good(env, Apply(env, db, op).value))
    ensures Apply(env, db, op).Ok? ==> Map(Apply(env, db, op).value) == Effect(Map(db), op)
  {
    ApplyOk(env, db, op);
  }

  /** A run of operations, in which those that fail change nothing. */
  ghost predicate Run(env: Env, dbs: seq<Db>, ops: seq<Op>) {
    |dbs| == |ops| + 1 && Good(env, dbs[0]) && forall i :: 0 <= i < |ops| ==> Follows(env, dbs[i], ops[i], dbs[i + 1])
  }

  predicate Follows(env: Env, db: Db, op: Op, db': Db) {
    DbShaped(db) && db' == if Apply(env, db, op).Ok? then Apply(env, db, op).value else db
  }

  predicate Succeeded(env: Env, db: Db, op: Op) { DbShaped(db) && Apply(env, db, op).Ok? }

  /** The map after the first n operations, those that failed left out. */
  function Replay(env: Env, m: map<real, Data>, dbs: seq<Db>, ops: seq<Op>, n: nat): map<real, Data>
    requires n <= |ops| && |dbs| > |ops|
  {
    if n == 0 then m
    else
      var before := Replay(env, m, dbs, ops, n - 1);
      if Succeeded(env, dbs[n - 1], ops[n - 1]) then Effect(before, ops[n - 1]) else before
  }

  /** Over every run of puts and deletes: the database is well formed and denotes the map that the same
    * operations leave. */
  lemma {:induction false} RunDenotes(env: Env, dbs: seq<Db>, ops: seq<Op>, n: nat)
    requires Run(env, dbs, ops) && n <= |ops|
    ensures Good(env, dbs[n]) && Map(dbs[n]) == Replay(env, Map(dbs[0]), dbs, ops, n)
    decreases n
  {
    hide Good, Map, Apply, Effect;
    if n > 0 {
      RunDenotes(env, dbs, ops, n - 1);
      ApplyGood(env, dbs[n - 1], ops[n - 1]);
      assert Follows(env, dbs[n - 1], ops[n - 1], dbs[n]);
    }
  }
}
