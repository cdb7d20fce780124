/** Deletion from a B+tree with mdb_rebalance: borrowing, merging and longer separators. */
module BTreeDelete {
  import opened SplitPoint
  import opened BTree
  import opened BTreeItems
  import opened BTreePut
  import opened BTreeMap

  /** What a deletion below leaves of a page; a changed page may be one node short. */
  ghost predicate DelOk(env: Env, d: nat, es: seq<Entry>, res: Del) {
    match res
    case Settled(t) => Wf(env, t, d) && Min(t) && Items(t) == es
    case Changed(t) => Wf(env, t, d) && NumKeys(t) >= MinKeys(t) - 1 && Items(t) == es
    case Grew(l, sep, r) => InsOk(env, d, es, Two(l, sep, r))
    case Failed => true
  }

  lemma AsDelOk(env: Env, d: nat, es: seq<Entry>, res: Ins)
    requires InsOk(env, d, es, res)
    ensures DelOk(env, d, es, AsDel(res))
  {
  }

  // ----- Joining lists of children -----

  lemma JoinedAt<T>(a: seq<T>, m: T, b: seq<T>)
    ensures |a + [m] + b| == |a| + 1 + |b|
    ensures forall i :: 0 <= i <= |a| + |b| ==>
      (a + [m] + b)[i] == if i < |a| then a[i] else if i == |a| then m else b[i - |a| - 1]
  {
  }

  lemma JoinSorted(sa: seq<Key>, mid: Key, sb: seq<Key>)
    requires SortedSeps(sa) && SortedSeps(sb)
    requires (sa != [] ==> sa[|sa| - 1].rank < mid.rank) && (sb != [] ==> mid.rank < sb[0].rank)
    ensures SortedSeps(sa + [mid] + sb)
  {
    JoinedAt(sa, mid, sb);
    assert forall i :: 0 <= i < |sa| ==> sa[i].rank < mid.rank;
    assert forall i :: 0 <= i < |sb| ==> mid.rank < sb[i].rank;
  }

  lemma JoinBelow(pa: seq<seq<Entry>>, sa: seq<Key>, mid: Key, pb: seq<seq<Entry>>, sb: seq<Key>, i: nat)
    requires Apart(pa, sa) && Apart(pb, sb) && Below(pa[|sa|], mid.rank) && i <= |sa| + |sb|
    ensures Below((pa + pb)[i], (sa + [mid] + sb)[i].rank)
  {
    JoinedAt(sa, mid, sb);
    if i > |sa| { assert Below(pb[i - |pa|], sb[i - |pa|].rank); }
  }

  lemma JoinFrom(pa: seq<seq<Entry>>, sa: seq<Key>, mid: Key, pb: seq<seq<Entry>>, sb: seq<Key>, i: nat)
    requires Apart(pa, sa) && Apart(pb, sb) && From(pb[0], mid.rank) && 0 < i <= |sa| + |sb| + 1
    ensures From((pa + pb)[i], (sa + [mid] + sb)[i - 1].rank)
  {
    JoinedAt(sa, mid, sb);
    if i > |pa| { assert From(pb[i - |pa|], sb[i - |pa| - 1].rank); }
  }

  /** Two runs of children with a separator between them. */
  lemma ApartJoin(pa: seq<seq<Entry>>, sa: seq<Key>, mid: Key, pb: seq<seq<Entry>>, sb: seq<Key>)
    requires Apart(pa, sa) && Apart(pb, sb) && SepOk(mid)
    requires Below(pa[|sa|], mid.rank) && From(pb[0], mid.rank)
    requires (sa != [] ==> sa[|sa| - 1].rank < mid.rank) && (sb != [] ==> mid.rank < sb[0].rank)
    ensures Apart(pa + pb, sa + [mid] + sb)
  {
    var p, s := pa + pb, sa + [mid] + sb;
    JoinSorted(sa, mid, sb);
    JoinedAt(sa, mid, sb);
    forall i | 0 <= i < |s| ensures Below(p[i], s[i].rank) { JoinBelow(pa, sa, mid, pb, sb, i); }
    forall i | 0 < i < |p| ensures From(p[i], s[i - 1].rank) { JoinFrom(pa, sa, mid, pb, sb, i); }
  }

  lemma PartsJoin(a: seq<Tree>, b: seq<Tree>)
    ensures Parts(a + b) == Parts(a) + Parts(b)
  {
  }

  /** Two neighbouring children taken as one. */
  function Fused<T>(s: seq<T>, j: nat, m: T): seq<T>
    requires j + 1 < |s|
  { s[..j] + [m] + s[j + 2..] }

  lemma FusedAt<T>(s: seq<T>, j: nat, m: T)
    requires j + 1 < |s|
    ensures |Fused(s, j, m)| == |s| - 1
    ensures forall i :: 0 <= i < |s| - 1 ==> Fused(s, j, m)[i] == if i < j then s[i] else if i == j then m else s[i + 1]
  {
  }

  lemma RemovedSep(seps: seq<Key>, j: nat)
    requires j < |seps|
    ensures |RemoveAt(seps, j)| == |seps| - 1
    ensures forall i :: 0 <= i < |seps| - 1 ==> RemoveAt(seps, j)[i] == if i < j then seps[i] else seps[i + 1]
  {
  }

  lemma FusedBelow(parts: seq<seq<Entry>>, seps: seq<Key>, j: nat, i: nat)
    requires Apart(parts, seps) && j < |seps| && i < |seps| - 1
    ensures Below(Fused(parts, j, parts[j] + parts[j + 1])[i], RemoveAt(seps, j)[i].rank)
  {
    FusedAt(parts, j, parts[j] + parts[j + 1]);
    RemovedSep(seps, j);
    if i == j {
      BelowUp(parts[j], seps[j].rank, seps[j + 1].rank);
      assert Below(parts[j + 1], seps[j + 1].rank);
    } else if i > j {
      assert Below(parts[i + 1], seps[i + 1].rank);
    }
  }

  lemma FusedFrom(parts: seq<seq<Entry>>, seps: seq<Key>, j: nat, i: nat)
    requires Apart(parts, seps) && j < |seps| && 0 < i < |seps|
    ensures From(Fused(parts, j, parts[j] + parts[j + 1])[i], RemoveAt(seps, j)[i - 1].rank)
  {
    FusedAt(parts, j, parts[j] + parts[j + 1]);
    RemovedSep(seps, j);
    if i == j {
      FromDown(parts[j + 1], seps[j].rank, seps[j - 1].rank);
      assert From(parts[j], seps[j - 1].rank);
    } else if i > j {
      assert From(parts[i + 1], seps[i].rank);
    }
  }

  lemma FusedSorted(seps: seq<Key>, j: nat)
    requires SortedSeps(seps) && j < |seps| && forall i :: 0 <= i < |seps| ==> SepOk(seps[i])
    ensures SortedSeps(RemoveAt(seps, j)) && forall i :: 0 <= i < |seps| - 1 ==> SepOk(RemoveAt(seps, j)[i])
  {
    RemovedSep(seps, j);
  }

  lemma ApartFused(parts: seq<seq<Entry>>, seps: seq<Key>, j: nat)
    requires Apart(parts, seps) && j < |seps|
    ensures Apart(Fused(parts, j, parts[j] + parts[j + 1]), RemoveAt(seps, j))
  {
    var p, s := Fused(parts, j, parts[j] + parts[j + 1]), RemoveAt(seps, j);
    FusedSorted(seps, j);
    forall i | 0 <= i < |s| ensures Below(p[i], s[i].rank) { FusedBelow(parts, seps, j, i); }
    forall i | 0 < i < |p| ensures From(p[i], s[i - 1].rank) { FusedFrom(parts, seps, j, i); }
  }

  lemma FusedSplit<T>(s: seq<T>, j: nat, m: T, a: T, b: T)
    requires j + 1 < |s|
    ensures Split(Fused(s, j, m), j, a, b) == s[j := a][j + 1 := b]
  {
  }

  lemma RemoveInsert<T>(s: seq<T>, j: nat, x: T)
    requires j < |s|
    ensures InsertAt(RemoveAt(s, j), j, x) == s[j := x]
  {
  }

  lemma SlotOfFused(parts: seq<seq<Entry>>, seps: seq<Key>, j: nat)
    requires Apart(parts, seps) && j < |seps|
    ensures FitsSlot(RemoveAt(seps, j), j, parts[j] + parts[j + 1])
  {
    FusedAt(parts, j, parts[j] + parts[j + 1]);
    ApartFused(parts, seps, j);
  }

  /** Entries move between two neighbours, and the separator with them. */
  lemma ApartMoved(parts: seq<seq<Entry>>, seps: seq<Key>, j: nat, a: seq<Entry>, sep: Key, b: seq<Entry>)
    requires Apart(parts, seps) && j < |seps| && a + b == parts[j] + parts[j + 1]
    requires SepOk(sep) && Below(a, sep.rank) && From(b, sep.rank) && a != [] && b != []
    ensures Apart(parts[j := a][j + 1 := b], seps[j := sep])
  {
    var m := parts[j] + parts[j + 1];
    ApartFused(parts, seps, j);
    SlotOfFused(parts, seps, j);
    var s := RemoveAt(seps, j);
    FitsParts(s, j, a, b);
    assert a[0] in a && b[0] in b;
    FusedAt(parts, j, m);
    ApartSplit(Fused(parts, j, m), s, j, a, sep, b);
    FusedSplit(parts, j, m, a, b);
    RemoveInsert(seps, j, sep);
  }

  // ----- The lowest key of a page -----

  lemma {:induction false} LowOk(env: Env, t: Tree, d: nat)
    requires Wf(env, t, d) && Min(t)
    ensures Items(t) != [] && Low(t) == Items(t)[0].key && SepOk(Low(t))
    decreases d
  {
    match t
    case Leaf(es) => assert EntryOk(env, es[0]);
    case Branch(kids, _) =>
      LowOk(env, kids[0], d - 1);
      assert Items(t) == Items(kids[0]) + Flat(kids[1..]);
  }

  /** The lowest key of a page separates it from what is to its left. */
  lemma LowSeparates(env: Env, t: Tree, d: nat)
    requires Wf(env, t, d) && Min(t)
    ensures SepOk(Low(t)) && From(Items(t), Low(t).rank)
    ensures Items(t) != [] && Items(t)[0].key == Low(t) && Items(t)[0] in Items(t)
  {
    LowOk(env, t, d);
    ItemsSorted(env, t, d);
  }

  // ----- Moving and merging pages -----

  /** Two neighbours under a separator, either of which may be one node short; `b` has a node. */
  ghost predicate PairOk(env: Env, d: nat, a: Tree, sep: Key, b: Tree) {
    && Wf(env, a, d) && Wf(env, b, d) && SepOk(sep)
    && NumKeys(a) >= MinKeys(a) - 1 && NumKeys(b) >= MinKeys(b) - 1
    && Below(Items(a), sep.rank) && From(Items(b), sep.rank)
  }

  ghost predicate MovedOk(env: Env, d: nat, es: seq<Entry>, m: Moved) {
    && Wf(env, m.a, d) && Min(m.a) && Wf(env, m.b, d) && Min(m.b)
    && SepOk(m.sep) && Below(Items(m.a), m.sep.rank) && From(Items(m.b), m.sep.rank)
    && Items(m.a) + Items(m.b) == es
  }

  lemma LeafParts(env: Env, es: seq<Entry>, i: nat)
    requires LeafOk(env, es) && 0 < i < |es|
    ensures LeafOk(env, es[..i]) && LeafOk(env, es[i..]) && es == es[..i] + es[i..]
    ensures Below(es[..i], es[i].key.rank) && From(es[i..], es[i].key.rank) && SepOk(es[i].key)
  {
    hide LeafSizes;
    LeafSizesParts(es, i);
    BytesSplit(LeafSizes(es), 0, i, |es|);
    PartsOk(env, es, i);
  }

  lemma LeafJoin(env: Env, a: seq<Entry>, b: seq<Entry>, r: real)
    requires EntriesOk(env, a) && EntriesOk(env, b) && Below(a, r) && From(b, r)
    ensures EntriesOk(env, a + b)
  {
    SortedConcat(a, b, r);
  }

  /** Two leaves whose entries are cut at another place. */
  lemma LeavesMoved(env: Env, es: seq<Entry>, a: seq<Entry>, k: Key, b: seq<Entry>)
    requires LeafOk(env, a) && LeafOk(env, b) && a != [] && b != [] && a + b == es
    requires SepOk(k) && Below(a, k.rank) && From(b, k.rank)
    ensures MovedOk(env, 0, es, Moved(Leaf(a), k, Leaf(b), 0))
  {
  }

  lemma BelowBoth(a: seq<Entry>, b: seq<Entry>, r: real)
    ensures Below(a + b, r) <==> Below(a, r) && Below(b, r)
    ensures From(a + b, r) <==> From(a, r) && From(b, r)
  {
    assert forall e :: e in a + b <==> e in a || e in b;
  }

  lemma JoinAssoc(a: seq<Entry>, x: seq<Entry>, b: seq<Entry>)
    ensures a + x + b == a + (x + b)
  {
  }

  /** The entries x go from the front of the right leaf to the end of the left one. */
  lemma LeafRightOk(env: Env, a: seq<Entry>, sep: Key, x: seq<Entry>, b: seq<Entry>, k: Key)
    requires LeafOk(env, a) && LeafOk(env, x) && LeafOk(env, b) && x != [] && b != [] && LeafUsed(a + x) <= env.Pmax()
    requires Below(a, sep.rank) && From(x, sep.rank) && SepOk(k) && Below(x, k.rank) && From(b, k.rank)
    ensures MovedOk(env, 0, a + (x + b), Moved(Leaf(a + x), k, Leaf(b), 0))
  {
    LeafJoin(env, a, x, sep.rank);
    assert x[0] in x;
    BelowUp(a, sep.rank, k.rank);
    BelowBoth(a, x, k.rank);
    JoinAssoc(a, x, b);
    LeavesMoved(env, a + (x + b), a + x, k, b);
  }

  /** The entries x go from the end of the left leaf to the front of the right one. */
  lemma LeafLeftOk(env: Env, a: seq<Entry>, k: Key, x: seq<Entry>, sep: Key, b: seq<Entry>)
    requires LeafOk(env, a) && LeafOk(env, x) && LeafOk(env, b) && x != [] && a != [] && LeafUsed(x + b) <= env.Pmax()
    requires Below(a, k.rank) && From(x, k.rank) && SepOk(k) && Below(x, sep.rank) && From(b, sep.rank)
    ensures MovedOk(env, 0, a + x + b, Moved(Leaf(a), k, Leaf(x + b), 0))
  {
    LeafJoin(env, x, b, sep.rank);
    assert x[0] in x;
    FromDown(b, sep.rank, k.rank);
    BelowBoth(x, b, k.rank);
    JoinAssoc(a, x, b);
    LeavesMoved(env, a + x + b, a, k, x + b);
  }

  lemma LeafMoveRight(env: Env, a: seq<Entry>, sep: Key, b: seq<Entry>)
    requires LeafOk(env, a) && LeafOk(env, b) && |b| >= 2 && LeafUsed(a + [b[0]]) <= env.Pmax()
    requires Below(a, sep.rank) && From(b, sep.rank)
    ensures MovedOk(env, 0, a + b, Moved(Leaf(a + [b[0]]), b[1].key, Leaf(b[1..]), 0))
  {
    hide LeafOk, MovedOk;
    var x, rest := b[..1], b[1..];
    LeafParts(env, b, 1);
    BelowBoth(x, rest, sep.rank);
    assert x == [b[0]];
    LeafRightOk(env, a, sep, x, rest, b[1].key);
  }

  lemma LeafMoveLeft(env: Env, a: seq<Entry>, sep: Key, b: seq<Entry>)
    requires LeafOk(env, a) && LeafOk(env, b) && |a| >= 2 && LeafUsed([a[|a| - 1]] + b) <= env.Pmax()
    requires Below(a, sep.rank) && From(b, sep.rank)
    ensures MovedOk(env, 0, a + b, Moved(Leaf(a[..|a| - 1]), a[|a| - 1].key, Leaf([a[|a| - 1]] + b), 0))
  {
    hide LeafOk, MovedOk;
    var n := |a| - 1;
    var front, x := a[..n], a[n..];
    LeafParts(env, a, n);
    BelowBoth(front, x, sep.rank);
    assert x == [a[n]];
    LeafLeftOk(env, front, a[n].key, x, sep, b);
  }

  lemma LeafMergedOk(env: Env, a: Tree, sep: Key, b: Tree)
    requires PairOk(env, 0, a, sep, b) && Used(Merged(a, b)) <= env.Pmax()
    ensures Wf(env, Merged(a, b), 0) && Items(Merged(a, b)) == Items(a) + Items(b)
  {
    LeafJoin(env, a.es, b.es, sep.rank);
  }

  /** Runs of children a and b, with a separator `sep` between their entries, joined at the lowest
    * key of b. */
  lemma KidsJoin(env: Env, d: nat, ka: seq<Tree>, sa: seq<Key>, sep: Key, kb: seq<Tree>, sb: seq<Key>)
    requires KidsOk(env, d, ka, sa) && KidsOk(env, d, kb, sb)
    requires Below(Flat(ka), sep.rank) && From(Flat(kb), sep.rank)
    ensures KidsOk(env, d, ka + kb, sa + [Low(kb[0])] + sb)
  {
    hide Wf, Min, Items, Flat, Low;
    SepsOfKids(env, d, ka, sa);
    SepsOfKids(env, d, kb, sb);
    var n := |sa|;
    var mid := Low(kb[0]);
    LowSeparates(env, kb[0], d);
    LowSeparates(env, ka[n], d);
    KidInFlat(ka, n);
    KidInFlat(kb, 0);
    BelowUp(Items(ka[n]), sep.rank, mid.rank);
    assert Parts(ka)[n] == Items(ka[n]) && Parts(kb)[0] == Items(kb[0]);
    ApartJoin(Parts(ka), sa, mid, Parts(kb), sb);
    PartsJoin(ka, kb);
  }

  lemma KidInFlat(kids: seq<Tree>, i: nat)
    requires i < |kids|
    ensures forall e :: e in Items(kids[i]) ==> e in Flat(kids)
  {
    FlatAround(kids, i);
  }

  // ----- Branches -----

  lemma UsedOfTail(seps: seq<Key>)
    requires seps != []
    ensures BranchUsed(seps[1..]) == BranchUsed(seps) - SepSize(seps[0])
  {
    BranchUsedRemove(seps, 0);
    assert RemoveAt(seps, 0) == seps[1..];
  }

  lemma UsedOfFront(seps: seq<Key>)
    requires seps != []
    ensures BranchUsed(seps[..|seps| - 1]) == BranchUsed(seps) - SepSize(seps[|seps| - 1])
  {
    BranchUsedRemove(seps, |seps| - 1);
    assert RemoveAt(seps, |seps| - 1) == seps[..|seps| - 1];
  }

  lemma UsedOfJoin(sa: seq<Key>, k: Key, sb: seq<Key>)
    ensures BranchUsed(sa + [k] + sb) == BranchUsed(sa) + SepSize(k) + BranchUsed(sb) - HEADER
  {
    BranchUsedOne(k);
    BranchUsedConcat(sa, [k]);
    BranchUsedConcat(sa + [k], sb);
  }

  /** Two branches whose children are cut at another place. */
  lemma BranchesMoved(env: Env, d: nat, es: seq<Entry>, ka: seq<Tree>, sa: seq<Key>, k: Key, kb: seq<Tree>, sb: seq<Key>)
    requires KidsOk(env, d, ka, sa) && KidsOk(env, d, kb, sb) && |ka| >= 2 && |kb| >= 2 && Flat(ka) + Flat(kb) == es
    requires BranchUsed(sa) <= env.Pmax() && BranchUsed(sb) <= env.Pmax()
    requires SepOk(k) && Below(Flat(ka), k.rank) && From(Flat(kb), k.rank)
    ensures MovedOk(env, d + 1, es, Moved(Branch(ka, sa), k, Branch(kb, sb), 0))
  {
    HalfOk(env, d, ka, sa);
    HalfOk(env, d, kb, sb);
  }

  lemma OneKid(env: Env, d: nat, c: Tree)
    requires Wf(env, c, d) && Min(c)
    ensures KidsOk(env, d, [c], []) && Flat([c]) == Items(c)
  {
    FlatOne(c);
  }

  /** Child c is added after the children ka. */
  lemma AppendKid(env: Env, d: nat, ka: seq<Tree>, sa: seq<Key>, sep: Key, c: Tree)
    requires KidsOk(env, d, ka, sa) && Wf(env, c, d) && Min(c) && Below(Flat(ka), sep.rank) && From(Items(c), sep.rank)
    ensures KidsOk(env, d, ka + [c], sa + [Low(c)]) && Flat(ka + [c]) == Flat(ka) + Items(c)
  {
    hide Wf, Min, Apart, Low, Below, From, Flat, Items, AllOk;
    SepsOfKids(env, d, ka, sa);
    OneKid(env, d, c);
    KidsJoin(env, d, ka, sa, sep, [c], []);
    assert sa + [Low(c)] + [] == sa + [Low(c)];
    FlatConcat(ka, [c]);
  }

  /** Child c is added before the children kb. */
  lemma PrependKid(env: Env, d: nat, c: Tree, sep: Key, kb: seq<Tree>, sb: seq<Key>)
    requires Wf(env, c, d) && Min(c) && KidsOk(env, d, kb, sb) && Below(Items(c), sep.rank) && From(Flat(kb), sep.rank)
    ensures KidsOk(env, d, [c] + kb, [Low(kb[0])] + sb) && Flat([c] + kb) == Items(c) + Flat(kb)
  {
    hide Wf, Min, Apart, Low, Below, From, Flat, Items, AllOk;
    SepsOfKids(env, d, kb, sb);
    OneKid(env, d, c);
    KidsJoin(env, d, [c], [], sep, kb, sb);
    assert [] + [Low(kb[0])] + sb == [Low(kb[0])] + sb;
    FlatConcat([c], kb);
  }

  lemma SepsAround(env: Env, d: nat, c: Tree, sep: real, k: real)
    requires Wf(env, c, d) && Min(c)
    ensures From(Items(c), sep) && Below(Items(c), k) ==> sep < k
  {
    LowSeparates(env, c, d);
  }

  /** Child c goes from the front of the right branch to the end of the left one. */
  lemma BranchRightOk(env: Env, d: nat, ka: seq<Tree>, sa: seq<Key>, sep: Key, c: Tree, k: Key, kb: seq<Tree>, sb: seq<Key>)
    requires KidsOk(env, d, ka, sa) && Wf(env, c, d) && Min(c) && KidsOk(env, d, kb, sb) && |kb| >= 2 && |ka| >= 1
    requires BranchUsed(sa + [Low(c)]) <= env.Pmax() && BranchUsed(sb) <= env.Pmax()
    requires Below(Flat(ka), sep.rank) && From(Items(c), sep.rank)
    requires SepOk(k) && Below(Items(c), k.rank) && From(Flat(kb), k.rank)
    ensures MovedOk(env, d + 1, Flat(ka) + (Items(c) + Flat(kb)), Moved(Branch(ka + [c], sa + [Low(c)]), k, Branch(kb, sb), 0))
  {
    hide *;
    AppendKid(env, d, ka, sa, sep, c);
    SepsAround(env, d, c, sep.rank, k.rank);
    BelowUp(Flat(ka), sep.rank, k.rank);
    BelowBoth(Flat(ka), Items(c), k.rank);
    JoinAssoc(Flat(ka), Items(c), Flat(kb));
    BranchesMoved(env, d, Flat(ka) + (Items(c) + Flat(kb)), ka + [c], sa + [Low(c)], k, kb, sb);
  }

  /** Child c goes from the end of the left branch to the front of the right one. */
  lemma BranchLeftOk(env: Env, d: nat, ka: seq<Tree>, sa: seq<Key>, k: Key, c: Tree, sep: Key, kb: seq<Tree>, sb: seq<Key>)
    requires KidsOk(env, d, ka, sa) && Wf(env, c, d) && Min(c) && KidsOk(env, d, kb, sb) && |ka| >= 2 && |kb| >= 1
    requires BranchUsed(sa) <= env.Pmax() && BranchUsed([Low(kb[0])] + sb) <= env.Pmax()
    requires Below(Items(c), sep.rank) && From(Flat(kb), sep.rank)
    requires SepOk(k) && Below(Flat(ka), k.rank) && From(Items(c), k.rank)
    ensures MovedOk(env, d + 1, Flat(ka) + Items(c) + Flat(kb), Moved(Branch(ka, sa), k, Branch([c] + kb, [Low(kb[0])] + sb), 0))
  {
    hide *;
    PrependKid(env, d, c, sep, kb, sb);
    SepsAround(env, d, c, k.rank, sep.rank);
    FromDown(Flat(kb), sep.rank, k.rank);
    BelowBoth(Items(c), Flat(kb), k.rank);
    JoinAssoc(Flat(ka), Items(c), Flat(kb));
    BranchesMoved(env, d, Flat(ka) + Items(c) + Flat(kb), ka, sa, k, [c] + kb, [Low(kb[0])] + sb);
  }

  lemma HeadAndTail<T>(s: seq<T>)
    requires s != []
    ensures s[..1] == [s[0]] && s[|s| - 1..] == [s[|s| - 1]]
  {
  }

  /** A run of children cut in two. */
  lemma KidsParts(env: Env, d: nat, kids: seq<Tree>, seps: seq<Key>, i: nat)
    requires KidsOk(env, d, kids, seps) && 0 < i < |kids|
    ensures KidsOk(env, d, kids[..i], seps[..i - 1]) && KidsOk(env, d, kids[i..], seps[i..]) && SepOk(seps[i - 1])
    ensures Below(Flat(kids[..i]), seps[i - 1].rank) && From(Flat(kids[i..]), seps[i - 1].rank)
    ensures Flat(kids) == Flat(kids[..i]) + Flat(kids[i..])
  {
    KidsOkParts(env, d, kids, seps, i);
    SeparatorCuts(kids, seps, i - 1);
    FlatCut(kids, i);
  }

  lemma KidOk(env: Env, d: nat, kids: seq<Tree>, seps: seq<Key>, i: nat)
    requires KidsOk(env, d, kids, seps) && i < |kids|
    ensures Wf(env, kids[i], d) && Min(kids[i]) && |kids| == |seps| + 1
  {
  }

  lemma BranchMoveRight(env: Env, d: nat, ka: seq<Tree>, sa: seq<Key>, sep: Key, kb: seq<Tree>, sb: seq<Key>)
    requires KidsOk(env, d, ka, sa) && KidsOk(env, d, kb, sb) && |kb| >= 3 && |ka| >= 1
    requires BranchUsed(sa + [Low(kb[0])]) <= env.Pmax() && BranchUsed(sb) <= env.Pmax()
    requires Below(Flat(ka), sep.rank) && From(Flat(kb), sep.rank)
    ensures MovedOk(env, d + 1, Flat(ka) + Flat(kb),
                    Moved(Branch(ka + [kb[0]], sa + [Low(kb[0])]), sb[0], Branch(kb[1..], sb[1..]), 0))
  {
    hide *;
    var c, rest := kb[0], kb[1..];
    KidOk(env, d, kb, sb, 0);
    KidsParts(env, d, kb, sb, 1);
    HeadAndTail(kb);
    FlatOne(c);
    UsedOfTail(sb);
    BelowBoth(Items(c), Flat(rest), sep.rank);
    BranchRightOk(env, d, ka, sa, sep, c, sb[0], rest, sb[1..]);
  }

  lemma BranchMoveLeft(env: Env, d: nat, ka: seq<Tree>, sa: seq<Key>, sep: Key, kb: seq<Tree>, sb: seq<Key>, n: nat)
    requires KidsOk(env, d, ka, sa) && KidsOk(env, d, kb, sb) && |ka| == n + 1 >= 3 && |kb| >= 1
    requires BranchUsed([Low(kb[0])] + sb) <= env.Pmax() && BranchUsed(sa) <= env.Pmax()
    requires Below(Flat(ka), sep.rank) && From(Flat(kb), sep.rank)
    ensures MovedOk(env, d + 1, Flat(ka) + Flat(kb),
                    Moved(Branch(ka[..n], sa[..n - 1]), sa[n - 1], Branch([ka[n]] + kb, [Low(kb[0])] + sb), 0))
  {
    hide *;
    var c, front := ka[n], ka[..n];
    KidOk(env, d, ka, sa, n);
    KidsParts(env, d, ka, sa, n);
    HeadAndTail(ka);
    FlatOne(c);
    UsedOfFront(sa);
    BelowBoth(Flat(front), Items(c), sep.rank);
    BranchLeftOk(env, d, front, sa[..n - 1], sa[n - 1], c, sep, kb, sb);
  }

  lemma BranchMergedOk(env: Env, d: nat, ka: seq<Tree>, sa: seq<Key>, sep: Key, kb: seq<Tree>, sb: seq<Key>)
    requires KidsOk(env, d, ka, sa) && KidsOk(env, d, kb, sb)
    requires BranchUsed(sa + [Low(kb[0])] + sb) <= env.Pmax()
    requires Below(Flat(ka), sep.rank) && From(Flat(kb), sep.rank)
    ensures Wf(env, Branch(ka + kb, sa + [Low(kb[0])] + sb), d + 1) && Min(Branch(ka + kb, sa + [Low(kb[0])] + sb))
    ensures Items(Branch(ka + kb, sa + [Low(kb[0])] + sb)) == Flat(ka) + Flat(kb)
  {
    KidsJoin(env, d, ka, sa, sep, kb, sb);
    HalfOk(env, d, ka + kb, sa + [Low(kb[0])] + sb);
    FlatConcat(ka, kb);
  }
}
