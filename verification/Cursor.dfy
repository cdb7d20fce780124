/** Cursors: the stack of pages from the root to a leaf that mdb_page_search_root, mdb_cursor_sibling
  * and mdb_cursor_set move.  A cursor stands at an index of the list of all entries. */
module Cursor {
  import opened SplitPoint
  import opened BTree
  import opened BTreeItems
  import opened BTreePut
  import opened BTreeMap
  import opened BTreeDelete

  const CURSOR_STACK := 32

  // ----- Searching a page -----

  function Rank(t: Tree, i: nat): real
    requires Local(t) && i < NumKeys(t) && (t.Branch? ==> i > 0)
  { if t.Leaf? then t.es[i].key.rank else t.seps[i - 1].rank }

  predicate PageSorted(t: Tree) { if t.Leaf? then SortedEntries(t.es) else SortedSeps(t.seps) }

  /** mdb_node_search.  `found` is that it returned a node. */
  method NodeSearch(t: Tree, r: real) returns (i: nat, exact: bool, found: bool)
    requires Local(t) && PageSorted(t) && (t.Branch? ==> NumKeys(t) > 0)
    ensures t.Leaf? ==> i == Pos(t.es, r) && (exact <==> Has(t.es, r)) && (found <==> i < |t.es|)
    ensures t.Branch? ==> ChildIndex(t.seps, r) == if !found then NumKeys(t) - 1 else if exact then i else i - 1
    ensures t.Branch? && found ==> i < NumKeys(t) && (!exact ==> i > 0)
  {
    hide PageSorted, Has, Pos, ChildIndex;
    i := 0;
    var nkeys := NumKeys(t);
    var low, high: int := if t.Leaf? then 0 else 1, nkeys - 1;
    ghost var low0 := low;
    var rc := 0;
    while low <= high
      invariant low0 <= low <= high + 1 <= nkeys
      invariant forall j :: low0 <= j < low ==> Rank(t, j) < r
      invariant forall j :: high < j < nkeys ==> Rank(t, j) > r
      invariant low == low0 && high == nkeys - 1 ==> rc == 0 && i == 0
      invariant low > low0 || high < nkeys - 1 ==> (rc > 0 && i == low - 1 && i >= low0) || (rc < 0 && i == high + 1 && i < nkeys)
    {
      i := (low + high) / 2;
      rc := if r < Rank(t, i) then -1 else if r > Rank(t, i) then 1 else 0;
      RankSorted(t, i);
      if rc == 0 { break; }
      if rc > 0 { low := i + 1; } else { high := i - 1; }
    }
    if rc > 0 { i := i + 1; }
    exact := rc == 0 && nkeys > 0;
    found := i < nkeys;
    if t.Leaf? {
      InLeaf(t, r, i, exact);
    } else {
      assert forall j :: 0 <= j < nkeys - 1 ==> t.seps[j].rank == Rank(t, j + 1);
      ChildUnique(t.seps, r, if !found then nkeys - 1 else if exact then i else i - 1);
    }
  }

  lemma InLeaf(t: Tree, r: real, i: nat, exact: bool)
    requires t.Leaf? && i <= |t.es| && (forall j :: 0 <= j < i ==> Rank(t, j) < r) && (i < |t.es| ==> Rank(t, i) >= r)
    requires exact <==> i < |t.es| && Rank(t, i) == r
    ensures i == Pos(t.es, r) && (exact <==> Has(t.es, r))
  {
    assert forall j :: 0 <= j < |t.es| ==> t.es[j].key.rank == Rank(t, j);
    PosUnique(t.es, r, i);
  }

  lemma RankSorted(t: Tree, i: nat)
    requires Local(t) && PageSorted(t) && i < NumKeys(t) && (t.Branch? ==> i > 0)
    ensures forall j :: (if t.Leaf? then 0 else 1) <= j < i ==> Rank(t, j) < Rank(t, i)
    ensures forall j :: i < j < NumKeys(t) ==> Rank(t, i) < Rank(t, j)
  {
  }

  lemma ChildUnique(seps: seq<Key>, r: real, i: nat)
    requires i <= |seps| && (i < |seps| ==> seps[i].rank > r) && forall j :: 0 <= j < i ==> seps[j].rank <= r
    ensures ChildIndex(seps, r) == i
  {
  }

  // ----- Paths -----

  datatype Level = Level(pg: Tree, ki: nat)

  ghost predicate PageOk(env: Env, t: Tree, d: nat) { Wf(env, t, d) && Min(t) }

  const NO_ROOT := Leaf([])

  ghost predicate RootOk(env: Env, t: Tree, d: nat) { t == NO_ROOT || PageOk(env, t, d) }

  lemma KidsOfPage(env: Env, t: Tree, d: nat)
    requires PageOk(env, t, d) && t.Branch?
    ensures d > 0 && |t.kids| >= 2 && |t.kids| == |t.seps| + 1
    ensures Apart(Parts(t.kids), t.seps) && PageSorted(t)
    ensures forall i :: 0 <= i < |t.kids| ==> PageOk(env, t.kids[i], d - 1)
  {
  }

  lemma LeafOfPage(env: Env, t: Tree, d: nat)
    requires PageOk(env, t, d)
    ensures t.Leaf? <==> d == 0
    ensures t.Leaf? ==> t.es != [] && PageSorted(t) && Items(t) == t.es
  {
  }

  /** Level i + 1 is the child that level i points to. */
  predicate Linked(s: seq<Level>, i: nat)
    requires i + 1 < |s|
  { s[i].pg.Branch? && s[i].ki < |s[i].pg.kids| && s[i + 1].pg == s[i].pg.kids[s[i].ki] }

  /** The first n levels lead from the root down. */
  ghost predicate Path(env: Env, root: Tree, d: nat, s: seq<Level>, n: nat) {
    && 1 <= n <= |s| && n <= d + 1 && s[0].pg == root
    && (forall i :: 0 <= i < n ==> PageOk(env, s[i].pg, d - i))
    && (forall i :: 0 <= i < n - 1 ==> Linked(s, i))
  }

  /** The entries of a page left of its index. */
  function LeftOf(l: Level): seq<Entry> {
    if l.pg.Branch? && l.ki <= |l.pg.kids| then Flat(l.pg.kids[..l.ki]) else []
  }

  /** The number of entries left of the page on level n - 1. */
  function Start(s: seq<Level>, n: nat): nat
    requires n <= |s|
  { if n <= 1 then 0 else Start(s, n - 1) + |LeftOf(s[n - 2])| }

  lemma {:induction false} SameStart(s: seq<Level>, t: seq<Level>, n: nat)
    requires n <= |s| && n <= |t| && forall i :: 0 <= i < n - 1 ==> t[i] == s[i]
    ensures Start(s, n) == Start(t, n)
  {
    if n > 1 { SameStart(s, t, n - 1); }
  }

  lemma FlatPrefix(kids: seq<Tree>, i: nat)
    requires i < |kids|
    ensures Flat(kids[..i + 1]) == Flat(kids[..i]) + Items(kids[i])
  {
    assert kids[..i + 1] == kids[..i] + [kids[i]];
    FlatConcat(kids[..i], [kids[i]]);
    FlatOne(kids[i]);
  }

  lemma FlatWhole(kids: seq<Tree>)
    ensures Flat(kids[..|kids|]) == Flat(kids) && Flat(kids[..0]) == []
  {
    assert kids[..|kids|] == kids;
  }

  /** `part` is the segment of `all` that begins at `at`. */
  predicate PartOf(all: seq<Entry>, at: nat, part: seq<Entry>) {
    at + |part| <= |all| && all[at..at + |part|] == part
  }

  lemma KidSegment(all: seq<Entry>, at: nat, up: Level)
    requires up.pg.Branch? && up.ki < |up.pg.kids| && PartOf(all, at, Items(up.pg))
    ensures PartOf(all, at + |LeftOf(up)|, Items(up.pg.kids[up.ki]))
  {
    hide PartOf;
    FlatAround(up.pg.kids, up.ki);
    SubSegment(all, at, Flat(up.pg.kids[..up.ki]), Items(up.pg.kids[up.ki]), Flat(up.pg.kids[up.ki + 1..]));
  }

  lemma SubSegment(all: seq<Entry>, at: nat, a: seq<Entry>, x: seq<Entry>, b: seq<Entry>)
    requires PartOf(all, at, a + x + b)
    ensures PartOf(all, at + |a|, x)
  {
    var part := a + x + b;
    assert forall i :: 0 <= i < |part| ==> part[i] == all[at + i];
    forall i | 0 <= i < |x| ensures all[at + |a| + i] == x[i] { assert part[|a| + i] == x[i]; }
  }

  /** What a page holds left of index i, for all indices. */
  lemma LeftStep(t: Tree, i: nat)
    requires t.Branch? && i < |t.kids|
    ensures LeftOf(Level(t, i + 1)) == LeftOf(Level(t, i)) + Items(t.kids[i])
  {
    FlatPrefix(t.kids, i);
  }

  lemma LeftEnds(t: Tree)
    requires t.Branch?
    ensures LeftOf(Level(t, 0)) == [] && LeftOf(Level(t, |t.kids|)) == Items(t)
  {
    FlatWhole(t.kids);
  }

  lemma PathBounds(env: Env, root: Tree, d: nat, s: seq<Level>, n: nat)
    requires Path(env, root, d, s, n)
    ensures 1 <= n <= |s| && n <= d + 1
  {
  }

  lemma PathPop(env: Env, root: Tree, d: nat, s: seq<Level>, n: nat)
    requires Path(env, root, d, s, n) && n >= 2
    ensures Path(env, root, d, s, n - 1) && s[n - 2].pg.Branch? && s[n - 2].ki < |s[n - 2].pg.kids|
    ensures s[n - 1].pg == s[n - 2].pg.kids[s[n - 2].ki]
  {
    assert Linked(s, n - 2);
  }

  /** The index on the last level of a path may be any. */
  lemma PathMove(env: Env, root: Tree, d: nat, s: seq<Level>, n: nat, t: seq<Level>)
    requires Path(env, root, d, s, n) && |t| == |s| && t[n - 1].pg == s[n - 1].pg && forall i :: 0 <= i < n - 1 ==> t[i] == s[i]
    ensures Path(env, root, d, t, n) && Start(t, n) == Start(s, n)
  {
    hide PageOk, Start;
    SameStart(s, t, n);
    forall i | 0 <= i < n - 1 ensures Linked(t, i) { assert Linked(s, i); }
  }

  /** The number of entries up to the end of the page on level n - 1. */
  function End(s: seq<Level>, n: nat): nat
    requires 1 <= n <= |s|
  { Start(s, n) + |Items(s[n - 1].pg)| }

  /** The same for child ki of the page on level n - 1. */
  function KidStart(s: seq<Level>, n: nat, ki: nat): nat
    requires 1 <= n <= |s|
  { Start(s, n) + |LeftOf(Level(s[n - 1].pg, ki))| }

  lemma PathPush(env: Env, root: Tree, d: nat, s: seq<Level>, n: nat, k: nat, t: seq<Level>)
    requires Path(env, root, d, s, n) && s[n - 1].pg.Branch? && s[n - 1].ki < |s[n - 1].pg.kids| && n < |s|
    requires t == s[n := Level(s[n - 1].pg.kids[s[n - 1].ki], k)]
    ensures Path(env, root, d, t, n + 1)
    ensures Start(t, n + 1) == KidStart(s, n, s[n - 1].ki) && End(t, n + 1) == KidStart(s, n, s[n - 1].ki + 1)
  {
    hide Path, Start, End, KidStart;
    PathBounds(env, root, d, s, n);
    assert forall i :: 0 <= i < n ==> t[i] == s[i];
    PathExtends(env, root, d, s, n, t);
    PushBounds(s, n, t);
  }

  lemma PathExtends(env: Env, root: Tree, d: nat, s: seq<Level>, n: nat, t: seq<Level>)
    requires Path(env, root, d, s, n) && s[n - 1].pg.Branch? && s[n - 1].ki < |s[n - 1].pg.kids| && n < |t|
    requires t[n].pg == s[n - 1].pg.kids[s[n - 1].ki] && forall i :: 0 <= i < n ==> t[i] == s[i]
    ensures Path(env, root, d, t, n + 1)
  {
    KidsOfPage(env, s[n - 1].pg, d - (n - 1));
    hide PageOk;
    forall i | 0 <= i < n ensures Linked(t, i) { if i < n - 1 { assert Linked(s, i); } }
  }

  lemma PushBounds(s: seq<Level>, n: nat, t: seq<Level>)
    requires 1 <= n <= |s| && s[n - 1].pg.Branch? && s[n - 1].ki < |s[n - 1].pg.kids| && n < |t|
    requires t[n].pg == s[n - 1].pg.kids[s[n - 1].ki] && forall i :: 0 <= i < n ==> t[i] == s[i]
    ensures Start(t, n + 1) == KidStart(s, n, s[n - 1].ki) && End(t, n + 1) == KidStart(s, n, s[n - 1].ki + 1)
  {
    hide LeftOf, Start, Items;
    SameStart(s, t, n);
    LeftStep(s[n - 1].pg, s[n - 1].ki);
    StartOf(t, n + 1);
  }

  /** Where a child begins and ends in terms of its parent. */
  lemma KidBounds(env: Env, root: Tree, d: nat, s: seq<Level>, n: nat)
    requires Path(env, root, d, s, n) && n >= 2
    ensures Start(s, n) == KidStart(s, n - 1, s[n - 2].ki) && End(s, n) == KidStart(s, n - 1, s[n - 2].ki + 1)
  {
    hide PageOk, Linked, Items, LeftOf, Start;
    PathPop(env, root, d, s, n);
    LeftStep(s[n - 2].pg, s[n - 2].ki);
    StartOf(s, n);
    assert s[n - 2] == Level(s[n - 2].pg, s[n - 2].ki);
  }

  lemma OuterKids(s: seq<Level>, n: nat)
    requires 1 <= n <= |s| && s[n - 1].pg.Branch?
    ensures KidStart(s, n, 0) == Start(s, n) && KidStart(s, n, NumKeys(s[n - 1].pg)) == End(s, n)
  {
    LeftEnds(s[n - 1].pg);
  }

  /** The entries of a page are a segment of all entries. */
  lemma {:induction false} Segment(env: Env, root: Tree, d: nat, s: seq<Level>, n: nat)
    requires Path(env, root, d, s, n)
    ensures PartOf(Items(root), Start(s, n), Items(s[n - 1].pg))
    decreases n
  {
    hide PageOk, Linked, Items, Start, PartOf, LeftOf;
    if n <= 1 {
      RootSegment(env, root, d, s, n);
    } else {
      PathPop(env, root, d, s, n);
      Segment(env, root, d, s, n - 1);
      KidSegment(Items(root), Start(s, n - 1), s[n - 2]);
      StartOf(s, n);
    }
  }

  lemma RootSegment(env: Env, root: Tree, d: nat, s: seq<Level>, n: nat)
    requires Path(env, root, d, s, n) && n <= 1
    ensures PartOf(Items(root), Start(s, n), Items(s[n - 1].pg))
  {
    hide PageOk, Items;
    assert Items(root)[0..0 + |Items(root)|] == Items(root);
  }

  lemma StartOf(s: seq<Level>, n: nat)
    requires 2 <= n <= |s|
    ensures Start(s, n) == Start(s, n - 1) + |LeftOf(s[n - 2])|
  {
  }

  // ----- Siblings -----

  /** mdb_cursor_sibling on values: the path to the next page on the level, if there is one. */
  function SiblingPath(s: seq<Level>, n: nat, right: bool): (q: Option<seq<Level>>)
    requires 1 <= n <= |s|
    ensures q.Some? ==> |q.value| == |s|
  {
    if n < 2 then None
    else
      var up := s[n - 2];
      var over := if right then up.ki + 1 >= NumKeys(up.pg) else up.ki == 0;
      match if over then SiblingPath(s, n - 1, right) else Some(s[n - 2 := Level(up.pg, if right then up.ki + 1 else up.ki - 1)])
      case None => None
      case Some(q) => Some(q[n - 1 := FirstOrLast(q[n - 2], right)])
  }

  /** The child under an index, entered at its first node or at its last one. */
  function FirstOrLast(up: Level, right: bool): Level {
    var mp := if up.pg.Branch? && up.ki < |up.pg.kids| then up.pg.kids[up.ki] else Leaf([]);
    Level(mp, if right || NumKeys(mp) == 0 then 0 else NumKeys(mp) - 1)
  }

  /** A path that moved right begins where the old one ended; one that moved left ends where it began. */
  ghost predicate Adjoins(env: Env, root: Tree, d: nat, s: seq<Level>, q: seq<Level>, n: nat, right: bool) {
    && 1 <= n <= |s| && |q| == |s| && Path(env, root, d, q, n)
    && (if right then Start(q, n) == End(s, n) && q[n - 1].ki == 0
        else End(q, n) == Start(s, n) && q[n - 1].ki == NumKeys(q[n - 1].pg) - 1)
  }

  lemma UpIsBranch(env: Env, root: Tree, d: nat, s: seq<Level>, n: nat)
    requires Path(env, root, d, s, n) && n <= d
    ensures s[n - 1].pg.Branch? && |s[n - 1].pg.kids| >= 2
    ensures forall c :: c in s[n - 1].pg.kids ==> NumKeys(c) > 0
  {
    LeafOfPage(env, s[n - 1].pg, d - (n - 1));
    KidsOfPage(env, s[n - 1].pg, d - (n - 1));
  }

  /** One level down from a parent that has moved. */
  lemma DownAgain(env: Env, root: Tree, d: nat, q: seq<Level>, n: nat, right: bool, t: seq<Level>)
    requires 1 <= n < |q| && n <= d && Path(env, root, d, q, n) && q[n - 1].pg.Branch? && q[n - 1].ki < |q[n - 1].pg.kids|
    requires t == q[n := FirstOrLast(q[n - 1], right)]
    ensures Path(env, root, d, t, n + 1) && t[n].ki == if right then 0 else NumKeys(t[n].pg) - 1
    ensures Start(t, n + 1) == KidStart(q, n, q[n - 1].ki) && End(t, n + 1) == KidStart(q, n, q[n - 1].ki + 1)
  {
    UpIsBranch(env, root, d, q, n);
    PathPush(env, root, d, q, n, t[n].ki, t);
  }

  /** The parent moved to its own sibling. */
  lemma AdjoinsOver(env: Env, root: Tree, d: nat, s: seq<Level>, q: seq<Level>, n: nat, right: bool, t: seq<Level>)
    requires 2 <= n <= |s| && n <= d + 1 && Path(env, root, d, s, n) && Adjoins(env, root, d, s, q, n - 1, right)
    requires if right then s[n - 2].ki + 1 >= NumKeys(s[n - 2].pg) else s[n - 2].ki == 0
    requires t == q[n - 1 := FirstOrLast(q[n - 2], right)]
    ensures Adjoins(env, root, d, s, t, n, right)
  {
    hide Path, Start, End, KidStart;
    KidBounds(env, root, d, s, n);
    PathPop(env, root, d, s, n);
    OuterKids(s, n - 1);
    UpIsBranch(env, root, d, q, n - 1);
    OuterKids(q, n - 1);
    DownAgain(env, root, d, q, n - 1, right, t);
  }

  /** The parent moved to its next child. */
  lemma AdjoinsWithin(env: Env, root: Tree, d: nat, s: seq<Level>, q: seq<Level>, n: nat, right: bool, t: seq<Level>)
    requires 2 <= n <= |s| && n <= d + 1 && Path(env, root, d, s, n)
    requires if right then s[n - 2].ki + 1 < NumKeys(s[n - 2].pg) else s[n - 2].ki > 0
    requires q == s[n - 2 := Level(s[n - 2].pg, if right then s[n - 2].ki + 1 else s[n - 2].ki - 1)]
    requires t == q[n - 1 := FirstOrLast(q[n - 2], right)]
    ensures Adjoins(env, root, d, s, t, n, right)
  {
    hide Path, Start, End;
    KidBounds(env, root, d, s, n);
    PathPop(env, root, d, s, n);
    PathMove(env, root, d, s, n - 1, q);
    DownAgain(env, root, d, q, n - 1, right, t);
  }

  /** There is no sibling exactly when the page is the outermost one; otherwise the cursor goes to the
    * page next to it. */
  lemma {:induction false} SiblingAdjoins(env: Env, root: Tree, d: nat, s: seq<Level>, n: nat, right: bool)
    requires Path(env, root, d, s, n)
    ensures SiblingPath(s, n, right).Some? ==> Adjoins(env, root, d, s, SiblingPath(s, n, right).value, n, right)
    ensures SiblingPath(s, n, right).None? ==> if right then End(s, n) == |Items(root)| else Start(s, n) == 0
    decreases n
  {
    hide PageOk, Linked, Items, Start, End, Adjoins, SiblingPath;
    if n <= 1 {
      NoSibling(env, root, d, s, n, right);
    } else {
      SiblingAdjoins(env, root, d, s, n - 1, right);
      SiblingStep(env, root, d, s, n, right, SiblingPath(s, n - 1, right));
    }
  }

  lemma NoSibling(env: Env, root: Tree, d: nat, s: seq<Level>, n: nat, right: bool)
    requires Path(env, root, d, s, n) && n <= 1
    ensures SiblingPath(s, n, right).None? && End(s, n) == |Items(root)| && Start(s, n) == 0
  {
    hide PageOk;
  }

  lemma SiblingOver(s: seq<Level>, n: nat, right: bool, p: Option<seq<Level>>)
    requires 2 <= n <= |s| && p == SiblingPath(s, n - 1, right)
    requires if right then s[n - 2].ki + 1 >= NumKeys(s[n - 2].pg) else s[n - 2].ki == 0
    ensures SiblingPath(s, n, right).Some? <==> p.Some?
    ensures p.Some? ==> SiblingPath(s, n, right).value == p.value[n - 1 := FirstOrLast(p.value[n - 2], right)]
  {
  }

  lemma SiblingStep(env: Env, root: Tree, d: nat, s: seq<Level>, n: nat, right: bool, p: Option<seq<Level>>)
    requires Path(env, root, d, s, n) && n >= 2 && p == SiblingPath(s, n - 1, right)
    requires p.Some? ==> Adjoins(env, root, d, s, p.value, n - 1, right)
    requires p.None? ==> if right then End(s, n - 1) == |Items(root)| else Start(s, n - 1) == 0
    ensures SiblingPath(s, n, right).Some? ==> Adjoins(env, root, d, s, SiblingPath(s, n, right).value, n, right)
    ensures SiblingPath(s, n, right).None? ==> if right then End(s, n) == |Items(root)| else Start(s, n) == 0
  {
    hide Adjoins, Start, End, KidStart, FirstOrLast, PageOk, Linked, Items;
    KidBounds(env, root, d, s, n);
    PathPop(env, root, d, s, n);
    OuterKids(s, n - 1);
    var up := s[n - 2];
    if if right then up.ki + 1 >= NumKeys(up.pg) else up.ki == 0 {
      SiblingOver(s, n, right, p);
      if p.Some? { AdjoinsOver(env, root, d, s, p.value, n, right, SiblingPath(s, n, right).value); }
    } else {
      var q := s[n - 2 := Level(up.pg, if right then up.ki + 1 else up.ki - 1)];
      AdjoinsWithin(env, root, d, s, q, n, right, SiblingPath(s, n, right).value);
    }
  }

  lemma AdjoinsPath(env: Env, root: Tree, d: nat, s: seq<Level>, q: seq<Level>, n: nat, right: bool)
    requires Adjoins(env, root, d, s, q, n, right)
    ensures Path(env, root, d, q, n) && (n <= d ==> q[n - 1].pg.Branch? && q[n - 1].ki < |q[n - 1].pg.kids|)
  {
    if n <= d { UpIsBranch(env, root, d, q, n); }
  }

  lemma SiblingOnPath(env: Env, root: Tree, d: nat, s: seq<Level>, n: nat, right: bool)
    requires Path(env, root, d, s, n)
    ensures SiblingPath(s, n, right).Some? ==> Path(env, root, d, SiblingPath(s, n, right).value, n)
    ensures SiblingPath(s, n, right).Some? && n <= d ==> var up := SiblingPath(s, n, right).value[n - 1];
      up.pg.Branch? && up.ki < |up.pg.kids|
  {
    hide PageOk, Linked, Items, Start, End, Adjoins, SiblingPath;
    SiblingAdjoins(env, root, d, s, n, right);
    if SiblingPath(s, n, right).Some? { AdjoinsPath(env, root, d, s, SiblingPath(s, n, right).value, n, right); }
  }

  // ----- Where a key belongs -----

  /** Key r belongs to the page on level n - 1: what is left of it is below, what is right is above. */
  ghost predicate Belongs(root: Tree, s: seq<Level>, n: nat, r: real)
    requires 1 <= n <= |s|
  {
    Cut(Items(root), Start(s, n), |Items(s[n - 1].pg)|, r)
  }

  /** Entries before index `at` are below r, those from at + len on are above it. */
  predicate Cut(all: seq<Entry>, at: nat, len: nat, r: real) {
    at + len <= |all| && Below(all[..at], r) && AllAbove(all[at + len..], r)
  }

  /** Going down to the child that ChildIndex picks. */
  lemma BelongsDown(env: Env, root: Tree, d: nat, s: seq<Level>, n: nat, r: real)
    requires Path(env, root, d, s, n) && n >= 2 && Belongs(root, s, n - 1, r)
    requires s[n - 2].pg.Branch? && s[n - 2].ki == ChildIndex(s[n - 2].pg.seps, r)
    ensures Belongs(root, s, n, r)
  {
    hide PageOk, Start, Cut, Items, Apart;
    StartOf(s, n);
    PathPop(env, root, d, s, n);
    var kids, seps, ki := s[n - 2].pg.kids, s[n - 2].pg.seps, s[n - 2].ki;
    KidsOfPage(env, s[n - 2].pg, d - (n - 2));
    Segment(env, root, d, s, n - 1);
    BranchItems(s[n - 2]);
    DownTo(Items(root), Start(s, n - 1), kids, seps, ki, r);
  }

  lemma BranchItems(up: Level)
    requires up.pg.Branch? && up.ki < |up.pg.kids|
    ensures Items(up.pg) == Flat(up.pg.kids) && LeftOf(up) == Flat(up.pg.kids[..up.ki])
  {
  }

  lemma DownTo(all: seq<Entry>, at: nat, kids: seq<Tree>, seps: seq<Key>, ki: nat, r: real)
    requires Apart(Parts(kids), seps) && ki == ChildIndex(seps, r) && ki < |kids|
    requires PartOf(all, at, Flat(kids)) && Cut(all, at, |Flat(kids)|, r)
    ensures Cut(all, at + |Flat(kids[..ki])|, |Items(kids[ki])|, r)
  {
    SlotOfRank(kids, seps, r);
    FlatAround(kids, ki);
    NarrowedTo(all, at, Flat(kids[..ki]), Items(kids[ki]), Flat(kids[ki + 1..]), r);
  }

  lemma NarrowedTo(all: seq<Entry>, at: nat, a: seq<Entry>, x: seq<Entry>, b: seq<Entry>, r: real)
    requires PartOf(all, at, a + x + b) && Cut(all, at, |a + x + b|, r) && Below(a, r) && AllAbove(b, r)
    ensures Cut(all, at + |a|, |x|, r)
  {
    var part := a + x + b;
    assert forall i :: 0 <= i < |part| ==> part[i] == all[at + i];
    forall e | e in all[..at + |a|] ensures e.key.rank < r {
      var i :| 0 <= i < at + |a| && all[i] == e;
      if i >= at { assert part[i - at] == a[i - at]; } else { assert all[..at][i] == e; }
    }
    forall e | e in all[at + |a| + |x|..] ensures e.key.rank > r {
      var i :| at + |a| + |x| <= i < |all| && all[i] == e;
      if i < at + |part| { assert part[i - at] == b[i - at - |a| - |x|]; } else { assert all[at + |part|..][i - at - |part|] == e; }
    }
  }

  /** The position of r among all entries, seen from its leaf. */
  lemma PosInLeaf(env: Env, root: Tree, d: nat, s: seq<Level>, n: nat, r: real)
    requires Path(env, root, d, s, n) && s[n - 1].pg.Leaf? && Belongs(root, s, n, r)
    ensures Pos(Items(root), r) == Start(s, n) + Pos(s[n - 1].pg.es, r)
    ensures Has(Items(root), r) <==> Has(s[n - 1].pg.es, r)
  {
    Segment(env, root, d, s, n);
    PosOfPart(Items(root), Start(s, n), s[n - 1].pg.es, r);
  }

  lemma PosOfPart(all: seq<Entry>, at: nat, es: seq<Entry>, r: real)
    requires PartOf(all, at, es) && Cut(all, at, |es|, r)
    ensures Pos(all, r) == at + Pos(es, r) && (Has(all, r) <==> Has(es, r))
  {
    assert all == all[..at] + es + all[at + |es|..];
    PosBetween(all[..at], es, all[at + |es|..], r);
  }

  /** A key between the first and the last key of a leaf belongs to it. */
  lemma BelongsBetween(env: Env, root: Tree, d: nat, s: seq<Level>, n: nat, r: real)
    requires Path(env, root, d, s, n) && s[n - 1].pg.Leaf? && s[n - 1].pg.es != []
    requires Start(s, n) == 0 || s[n - 1].pg.es[0].key.rank <= r
    requires Start(s, n) + |s[n - 1].pg.es| == |Items(root)| || r <= s[n - 1].pg.es[|s[n - 1].pg.es| - 1].key.rank
    ensures Belongs(root, s, n, r)
  {
    hide Start, Items, Cut, SortedEntries, Linked, Wf;
    Segment(env, root, d, s, n);
    ItemsSorted(env, root, d);
    LeafOfPage(env, s[n - 1].pg, d - (n - 1));
    CutBetween(Items(root), Start(s, n), s[n - 1].pg.es, r);
  }

  lemma CutBetween(all: seq<Entry>, at: nat, es: seq<Entry>, r: real)
    requires SortedEntries(all) && PartOf(all, at, es) && es != []
    requires at == 0 || es[0].key.rank <= r
    requires at + |es| == |all| || r <= es[|es| - 1].key.rank
    ensures Cut(all, at, |es|, r)
  {
    assert forall i :: 0 <= i < |es| ==> es[i] == all[at..at + |es|][i] == all[at + i];
  }

  // ----- Going down to a leaf -----

  datatype Target = First | Last | To(rank: real)

  /** The child of a branch page that a search follows. */
  function Pick(t: Tree, target: Target): int
    requires Local(t) && t.Branch?
  {
    match target
    case First => 0
    case Last => NumKeys(t) - 1
    case To(r) => ChildIndex(t.seps, r)
  }

  /** The page on level n - 1 is on the way to the target. */
  ghost predicate OnWay(root: Tree, s: seq<Level>, n: nat, target: Target)
    requires 1 <= n <= |s|
  {
    match target
    case First => Start(s, n) == 0
    case Last => End(s, n) == |Items(root)|
    case To(r) => Belongs(root, s, n, r)
  }

  lemma AtRoot(env: Env, root: Tree, d: nat, s: seq<Level>, target: Target)
    requires PageOk(env, root, d) && s != [] && s[0].pg == root
    ensures Path(env, root, d, s, 1) && OnWay(root, s, 1, target)
  {
    hide PageOk;
  }

  lemma PathPrefix(env: Env, root: Tree, d: nat, s: seq<Level>, n: nat, m: nat)
    requires Path(env, root, d, s, n) && 1 <= m <= n
    ensures Path(env, root, d, s, m)
  {
    hide PageOk, Linked;
  }

  lemma WayDown(env: Env, root: Tree, d: nat, s: seq<Level>, n: nat, target: Target, t: seq<Level>)
    requires 1 <= n < |s| && Path(env, root, d, s, n) && OnWay(root, s, n, target) && |t| == |s|
    requires Path(env, root, d, t, n + 1) && forall i :: 0 <= i < n - 1 ==> t[i] == s[i]
    requires s[n - 1].pg.Branch? && Local(s[n - 1].pg) && t[n - 1].pg == s[n - 1].pg && t[n - 1].ki == Pick(s[n - 1].pg, target)
    ensures OnWay(root, t, n + 1, target)
  {
    hide PageOk, Path, Start, End, KidStart, Cut;
    KidBounds(env, root, d, t, n + 1);
    OuterKids(t, n);
    SameStart(s, t, n);
    SameEnd(s, t, n);
    PathPop(env, root, d, t, n + 1);
    if target.To? { BelongsDown(env, root, d, t, n + 1, target.rank); }
  }

  lemma SameEnd(s: seq<Level>, t: seq<Level>, n: nat)
    requires 1 <= n <= |s| && |t| == |s| && s[n - 1].pg == t[n - 1].pg && Start(s, n) == Start(t, n)
    ensures End(s, n) == End(t, n)
  {
  }

  /** Setting the index of a branch page and pushing that child. */
  lemma PushChild(env: Env, root: Tree, d: nat, s: seq<Level>, n: nat, i: nat, t: seq<Level>)
    requires 1 <= n < |s| && Path(env, root, d, s, n) && s[n - 1].pg.Branch? && i < |s[n - 1].pg.kids|
    requires t == s[n - 1 := Level(s[n - 1].pg, i)][n := Level(s[n - 1].pg.kids[i], 0)]
    ensures Path(env, root, d, t, n + 1)
  {
    hide PageOk, Path, Start;
    var q := s[n - 1 := Level(s[n - 1].pg, i)];
    PathMove(env, root, d, s, n, q);
    PathPush(env, root, d, q, n, 0, t);
  }

  lemma PageOnPath(env: Env, root: Tree, d: nat, s: seq<Level>, n: nat)
    requires Path(env, root, d, s, n)
    ensures s[n - 1].pg.Branch? <==> n <= d
    ensures Local(s[n - 1].pg) && PageSorted(s[n - 1].pg) && NumKeys(s[n - 1].pg) > 0
    ensures s[n - 1].pg.Branch? ==> NumKeys(s[n - 1].pg) > 1
    ensures s[n - 1].pg.Leaf? ==> Items(s[n - 1].pg) == s[n - 1].pg.es
  {
    LeafOfPage(env, s[n - 1].pg, d - (n - 1));
    if s[n - 1].pg.Branch? { KidsOfPage(env, s[n - 1].pg, d - (n - 1)); }
  }

  // ----- The entry under a cursor -----

  /** The entry at index i of a leaf. */
  lemma EntryAt(env: Env, root: Tree, d: nat, s: seq<Level>, n: nat, i: nat)
    requires Path(env, root, d, s, n) && s[n - 1].pg.Leaf? && i < |s[n - 1].pg.es|
    ensures Start(s, n) + i < |Items(root)| && Items(root)[Start(s, n) + i] == s[n - 1].pg.es[i]
  {
    hide PageOk, Linked, Start;
    PageOnPath(env, root, d, s, n);
    Segment(env, root, d, s, n);
    var at, es := Start(s, n), s[n - 1].pg.es;
    assert Items(root)[at + i] == Items(root)[at..at + |es|][i];
  }

  /** All parents at their last child: the leaf is the last one. */
  lemma {:induction false} LastOfAll(env: Env, root: Tree, d: nat, s: seq<Level>, n: nat)
    requires Path(env, root, d, s, n) && forall i :: 0 <= i < n - 1 ==> s[i].ki >= NumKeys(s[i].pg) - 1
    ensures End(s, n) == |Items(root)|
    decreases n
  {
    hide PageOk, Linked, Start, KidStart, Items;
    if n <= 1 {
      NoSibling(env, root, d, s, n, true);
    } else {
      KidBounds(env, root, d, s, n);
      PathPop(env, root, d, s, n);
      OuterKids(s, n - 1);
      LastOfAll(env, root, d, s, n - 1);
    }
  }

  /** A key above all keys of the last leaf is above all keys. */
  lemma PosPastEnd(env: Env, root: Tree, d: nat, s: seq<Level>, n: nat, r: real)
    requires Path(env, root, d, s, n) && s[n - 1].pg.Leaf? && s[n - 1].pg.es != [] && End(s, n) == |Items(root)|
    requires s[n - 1].pg.es[|s[n - 1].pg.es| - 1].key.rank < r
    ensures Pos(Items(root), r) == |Items(root)| && !Has(Items(root), r)
  {
    hide PageOk, Linked;
    ItemsSorted0(env, root, d, s, n);
    EntryAt(env, root, d, s, n, |s[n - 1].pg.es| - 1);
    PosUnique(Items(root), r, |Items(root)|);
  }

  lemma ItemsSorted0(env: Env, root: Tree, d: nat, s: seq<Level>, n: nat)
    requires Path(env, root, d, s, n)
    ensures SortedEntries(Items(root))
  {
    assert PageOk(env, s[0].pg, d - 0);
    ItemsSorted(env, root, d);
  }

  lemma LeafSorted(env: Env, root: Tree, d: nat, s: seq<Level>, n: nat)
    requires Path(env, root, d, s, n) && s[n - 1].pg.Leaf?
    ensures SortedEntries(s[n - 1].pg.es)
  {
    LeafOfPage(env, s[n - 1].pg, d - (n - 1));
  }

  /** Entry i of the leaf has the key. */
  lemma KeyAt(env: Env, root: Tree, d: nat, s: seq<Level>, n: nat, i: nat, r: real)
    requires Path(env, root, d, s, n) && s[n - 1].pg.Leaf? && i < |s[n - 1].pg.es| && s[n - 1].pg.es[i].key.rank == r
    ensures Pos(Items(root), r) == Start(s, n) + i && Has(Items(root), r)
  {
    hide PageOk, Linked, Start, Items, Belongs;
    var es := s[n - 1].pg.es;
    LeafSorted(env, root, d, s, n);
    BelongsBetween(env, root, d, s, n, r);
    PosInLeaf(env, root, d, s, n, r);
    PosUnique(es, r, i);
  }

  /** A key below all keys of the leaf, which is the first one. */
  lemma BeforeFirst(env: Env, root: Tree, d: nat, s: seq<Level>, n: nat, r: real)
    requires Path(env, root, d, s, n) && s[n - 1].pg.Leaf? && s[n - 1].pg.es != [] && r < s[n - 1].pg.es[0].key.rank
    requires Start(s, n) == 0
    ensures Pos(Items(root), r) == 0 && !Has(Items(root), r)
  {
    hide PageOk, Linked, Start, Items, Belongs;
    var es := s[n - 1].pg.es;
    LeafSorted(env, root, d, s, n);
    BelongsBetween(env, root, d, s, n, r);
    PosInLeaf(env, root, d, s, n, r);
    PosUnique(es, r, 0);
  }

  // ----- The cursor -----

  lemma EmptyRoot(env: Env, root: Tree, d: nat)
    requires RootOk(env, root, d)
    ensures root == NO_ROOT <==> Items(root) == []
  {
    if root != NO_ROOT { LowOk(env, root, d); }
  }

  method PickChild(mp: Tree, target: Target) returns (i: nat)
    requires Local(mp) && mp.Branch? && PageSorted(mp) && NumKeys(mp) > 0
    ensures i == Pick(mp, target) && i < NumKeys(mp)
  {
    match target {
      case First => i := 0;
      case Last => i := NumKeys(mp) - 1;
      case To(r) =>
        var at, exact, found := NodeSearch(mp, r);
        i := if !found then NumKeys(mp) - 1 else if exact then at else at - 1;
    }
  }

  datatype Outcome = At(e: Entry) | Missing | BadKey

  /** What mdb_cursor_set knows before it searches: it is there, there is no such entry, it must be on
    * the page, or nothing. */
  datatype Route = Here | Nowhere | OnPage | Anywhere

  class Cursor {
    const env: Env
    const root: Tree  // a leaf without entries stands for md_root == P_INVALID
    const d: nat  // md_depth - 1
    var stack: seq<Level>  // mc_pg and mc_ki
    var snum: nat
    var initialized: bool
    var eof: bool

    ghost predicate Fixed() reads this {
      env.Ok() && RootOk(env, root, d) && d < CURSOR_STACK && |stack| == CURSOR_STACK
    }

    ghost predicate OnPath() reads this { Fixed() && Path(env, root, d, stack, snum) }

    /** The cursor has been placed: its path ends in a leaf. */
    ghost predicate Placed() reads this {
      && OnPath() && snum == d + 1
      && stack[d].pg.Leaf? && stack[d].ki <= |stack[d].pg.es|
    }

    ghost predicate LastLeaf() reads this
      requires Placed()
    { Start(stack, d + 1) + |stack[d].pg.es| == |Items(root)| }

    ghost predicate Valid() reads this {
      && Fixed()
      && (initialized ==> Placed() && (eof ==> LastLeaf()))
      && (!initialized ==> stack[0].ki == 0)
      && (root == NO_ROOT ==> !initialized)
    }

    /** The index of the entry under the cursor, or of the one after a leaf it has run off. */
    ghost function Index(): nat reads this
      requires Placed()
    { Start(stack, d + 1) + stack[d].ki }

    constructor (env: Env, root: Tree, d: nat)
      requires env.Ok() && RootOk(env, root, d) && d < CURSOR_STACK
      ensures Valid() && !initialized && this.env == env && this.root == root && this.d == d
    {
      this.env, this.root, this.d := env, root, d;
      stack := seq(CURSOR_STACK, i => Level(root, 0));
      snum, initialized, eof := 0, false, false;
    }

    method Push(mp: Tree)
      requires snum < |stack|
      modifies this`stack, this`snum
      ensures snum == old(snum) + 1 && stack == old(stack)[old(snum) := Level(mp, 0)]
    {
      stack := stack[snum := Level(mp, 0)];
      snum := snum + 1;
    }

    method SetKi(i: nat)
      requires 0 < snum <= |stack|
      modifies this`stack
      ensures stack == old(stack)[snum - 1 := Level(old(stack)[snum - 1].pg, i)]
    { stack := stack[snum - 1 := stack[snum - 1].(ki := i)]; }

    /** Push the child under the index, at its first or its last node. */
    method Enter(right: bool)
      requires 0 < snum < |stack| && stack[snum - 1].pg.Branch? && stack[snum - 1].ki < |stack[snum - 1].pg.kids|
      requires NumKeys(stack[snum - 1].pg.kids[stack[snum - 1].ki]) > 0
      modifies this`stack, this`snum
      ensures snum == old(snum) + 1 && stack == old(stack)[old(snum) := FirstOrLast(old(stack)[old(snum) - 1], right)]
    {
      var up := stack[snum - 1];
      var mp := up.pg.kids[up.ki];
      Push(mp);
      if !right { SetKi(NumKeys(mp) - 1); }
    }

    /** The index in the leaf. */
    method SetIndex(i: nat)
      requires Placed() && i <= |stack[d].pg.es|
      modifies this`stack
      ensures Placed() && stack[d] == Level(old(stack[d].pg), i) && stack[..d] == old(stack[..d])
      ensures Start(stack, d + 1) == old(Start(stack, d + 1)) && Index() == Start(stack, d + 1) + i
      ensures LastLeaf() <==> old(LastLeaf())
    {
      hide PageOk, Linked, Start, Items;
      ghost var was := stack;
      SetKi(i);
      PathMove(env, root, d, was, snum, stack);
    }

    /** mdb_cursor_sibling: to the next page on the same level, on either side; if there is none the
      * cursor is as it was. */
    method Sibling(right: bool) returns (ok: bool)
      requires OnPath()
      modifies this`stack, this`snum
      ensures OnPath() && snum == old(snum)
      ensures ok == SiblingPath(old(stack), snum, right).Some?
      ensures stack == if ok then SiblingPath(old(stack), snum, right).value else old(stack)
      decreases snum
    {
      hide PageOk, Path, Items, Start, Linked;
      PathBounds(env, root, d, stack, snum);
      SiblingOnPath(env, root, d, stack, snum, right);
      if snum < 2 {
        return false;
      }
      ghost var was := stack;
      PathPop(env, root, d, stack, snum);
      SiblingOnPath(env, root, d, stack, snum - 1, right);
      snum := snum - 1;
      var top := stack[snum - 1];
      if if right then top.ki + 1 >= NumKeys(top.pg) else top.ki == 0 {
        ok := Sibling(right);
        if !ok {
          snum := snum + 1;
          return;
        }
      } else {
        SetKi(if right then top.ki + 1 else top.ki - 1);
        PathMove(env, root, d, was, snum, stack);
      }
      UpIsBranch(env, root, d, stack, snum);
      Enter(right);
      ok := true;
      assert stack == SiblingPath(was, snum, right).value;
    }

    /** mdb_cursor_sibling on a leaf. */
    method NextLeaf(right: bool) returns (ok: bool)
      requires Placed()
      modifies this`stack, this`snum
      ensures Placed()
      ensures ok ==> stack[d].ki < |stack[d].pg.es| && Index() == old(if right then End(stack, d + 1) else Start(stack, d + 1) - 1)
      ensures ok && !right ==> stack[d].ki + 1 == |stack[d].pg.es|
      ensures !ok ==> stack == old(stack) && if right then LastLeaf() else Start(stack, d + 1) == 0
    {
      hide PageOk, Linked, Start, Items;
      PageOnPath(env, root, d, stack, snum);
      SiblingAdjoins(env, root, d, stack, snum, right);
      ok := Sibling(right);
      PageOnPath(env, root, d, stack, snum);
    }

    /** The entry under the cursor. */
    method Current() returns (out: Outcome)
      requires Placed() && stack[d].ki < |stack[d].pg.es|
      ensures Index() < |Items(root)| && out == At(Items(root)[Index()])
    {
      hide PageOk, Linked, Start, Items;
      EntryAt(env, root, d, stack, snum, stack[d].ki);
      out := At(stack[d].pg.es[stack[d].ki]);
    }

    /** mdb_page_search, without MDB_PS_MODIFY and MDB_PS_ROOTONLY; it fails if there is no root page.  An
      * MDB_PS_LAST search on a placed cursor reuses the levels that already point to the last child. */
    method Search(target: Target) returns (ok: bool)
      requires Valid()
      modifies this
      ensures Valid() && (ok <==> root != NO_ROOT)
      ensures ok ==> initialized && !eof && OnWay(root, stack, d + 1, target)
      ensures !ok ==> !initialized && stack == old(stack)
    {
      hide PageOk, Linked, OnWay, PageSorted, Start, End;
      if root == NO_ROOT { return false; }
      stack := stack[0 := Level(root, stack[0].ki)];
      snum := 1;
      assert initialized ==> stack == old(stack);
      AtRoot(env, root, d, stack, target);
      while stack[snum - 1].pg.Branch?
        invariant OnPath() && OnWay(root, stack, snum, target) && Stale()
        invariant initialized == old(initialized)
        decreases d + 1 - snum
      {
        Down(target);
      }
      PageOnPath(env, root, d, stack, snum);
      initialized, eof := true, false;
      ok := true;
    }

    /** The levels from snum on still lead to the last leaf visited, if the top level is unchanged. */
    ghost predicate Stale() reads this {
      |stack| == CURSOR_STACK && 0 < snum <= d + 1 <= |stack| &&
      (stack[snum - 1].ki == 0 || (initialized && Path(env, root, d, stack, d + 1) && stack[d].ki <= NumKeys(stack[d].pg)))
    }

    /** One step of mdb_page_search_root. */
    method Down(target: Target)
      requires OnPath() && OnWay(root, stack, snum, target) && Stale() && stack[snum - 1].pg.Branch?
      modifies this`stack, this`snum
      ensures OnPath() && OnWay(root, stack, snum, target) && Stale() && snum == old(snum) + 1
    {
      hide PageOk, Linked, OnWay, PageSorted, Start, End;
      PageOnPath(env, root, d, stack, snum);
      var mp := stack[snum - 1].pg;
      ghost var was := stack;
      var i := PickChild(mp, target);
      if target.Last? && initialized && stack[snum - 1].ki == i {
        snum := snum + 1;
        PathPrefix(env, root, d, stack, d + 1, snum);
      } else {
        SetKi(i);
        Push(mp.kids[i]);
        PushChild(env, root, d, was, snum - 1, i, stack);
      }
      WayDown(env, root, d, was, snum - 1, target, stack);
    }

    /** All levels above the leaf point to their last child. */
    method OnLastLeaf() returns (b: bool)
      requires Valid() && initialized
      ensures b ==> LastLeaf()
      ensures snum == 1 ==> b
    {
      hide Path, PageOk, Start, Linked;
      PathBounds(env, root, d, stack, snum);
      var i := 0;
      while i < snum - 1
        invariant 0 <= i <= snum - 1 && forall j :: 0 <= j < i ==> stack[j].ki >= NumKeys(stack[j].pg) - 1
      {
        if stack[i].ki < NumKeys(stack[i].pg) - 1 { break; }
        i := i + 1;
      }
      b := i == snum - 1;
      if b { LastOfAll(env, root, d, stack, snum); }
    }

    /** The key is above the first key of the leaf, and not above its last key. */
    method LookWithin(r: real, range: bool) returns (route: Route)
      requires Valid() && initialized
      requires |stack[d].pg.es| > 1 && stack[d].pg.es[0].key.rank < r <= stack[d].pg.es[|stack[d].pg.es| - 1].key.rank
      modifies this
      ensures Valid() && initialized && (route.Here? || route.OnPage?)
      ensures route.Here? ==> Index() == Pos(Items(root), r) < |Items(root)| && stack[d].ki < |stack[d].pg.es|
      ensures route.Here? ==> Has(Items(root), r)
      ensures route.OnPage? ==> Belongs(root, stack, d + 1, r)
    {
      hide PageOk, Linked, Start, Items, Cut, Pos, Has;
      Segment(env, root, d, stack, snum);
      PageOnPath(env, root, d, stack, snum);
      var es := stack[d].pg.es;
      if r == es[|es| - 1].key.rank {
        SetIndex(|es| - 1);
        KeyAt(env, root, d, stack, snum, |es| - 1, r);
        return Here;
      }
      if stack[d].ki < |es| && es[stack[d].ki].key.rank == r {
        KeyAt(env, root, d, stack, snum, stack[d].ki, r);
        return Here;
      }
      BelongsBetween(env, root, d, stack, snum, r);
      eof := false;
      route := OnPage;
    }

    /** The first part of mdb_cursor_set: see whether the cursor is already on the right page. */
    method Look(r: real, range: bool) returns (route: Route)
      requires Valid()
      modifies this
      ensures Valid() && initialized == old(initialized) && (!initialized ==> route.Anywhere?)
      ensures route.Here? ==> Index() == Pos(Items(root), r) < |Items(root)| && stack[d].ki < |stack[d].pg.es|
      ensures route.Here? && !range ==> Has(Items(root), r)
      ensures route.Nowhere? ==> if range then Pos(Items(root), r) == |Items(root)| else !Has(Items(root), r)
      ensures route.OnPage? ==> Belongs(root, stack, d + 1, r)
    {
      hide PageOk, Linked, Start, Items, Cut, Pos, Has;
      if !initialized {
        return Anywhere;
      }
      PageOnPath(env, root, d, stack, snum);
      Segment(env, root, d, stack, snum);
      var es := stack[d].pg.es;
      var first, last := es[0].key.rank, es[|es| - 1].key.rank;
      if r == first {
        SetIndex(0);
        KeyAt(env, root, d, stack, snum, 0, r);
        return Here;
      }
      if r > first {
        if |es| > 1 && r <= last {
          route := LookWithin(r, range);
          return;
        }
        var b := OnLastLeaf();
        if b {
          PosPastEnd(env, root, d, stack, snum, r);
          SetIndex(|es|);
          return Nowhere;
        }
      }
      if snum == 1 {
        NoSibling(env, root, d, stack, snum, false);
        BeforeFirst(env, root, d, stack, snum, r);
        SetIndex(0);
        return if range then Here else Nowhere;
      }
      return Anywhere;
    }

    /** mdb_cursor_set with MDB_SET_RANGE (`range`) or with MDB_SET and MDB_SET_KEY. */
    method Set(key: Key, range: bool) returns (out: Outcome)
      requires Valid()
      modifies this
      ensures Valid()
      ensures key.size == 0 ==> out == BadKey && stack == old(stack) && initialized == old(initialized) && eof == old(eof)
      ensures key.size > 0 && (range || Has(Items(root), key.rank)) && Pos(Items(root), key.rank) < |Items(root)| ==>
        out == At(Items(root)[Pos(Items(root), key.rank)]) && initialized && Index() == Pos(Items(root), key.rank)
      ensures key.size > 0 && range && Pos(Items(root), key.rank) == |Items(root)| ==> out == Missing
      ensures key.size > 0 && !range && !Has(Items(root), key.rank) ==> out == Missing
    {
      hide PageOk, Linked, Start, Items, Cut, Pos, Has;
      if key.size == 0 {
        return BadKey;
      }
      var route := Look(key.rank, range);
      if route.Nowhere? {
        return Missing;
      }
      if !route.Here? {
        if route.Anywhere? {
          var there := Search(To(key.rank));
          if !there {
            EmptyRoot(env, root, d);
            return Missing;
          }
        }
        var ok := OnLeaf(key.rank, range);
        if !ok {
          return Missing;
        }
      }
      initialized, eof := true, false;
      out := Current();
    }

    /** The part of mdb_cursor_set from label set2 on: search the leaf, or go to its sibling. */
    method OnLeaf(r: real, range: bool) returns (ok: bool)
      requires Valid() && initialized && Belongs(root, stack, d + 1, r)
      modifies this
      ensures Valid() && initialized
      ensures ok ==> Index() == Pos(Items(root), r) < |Items(root)| && stack[d].ki < |stack[d].pg.es|
      ensures ok && !range ==> Has(Items(root), r)
      ensures !ok ==> if range then Pos(Items(root), r) == |Items(root)| else !Has(Items(root), r)
    {
      hide PageOk, Linked, Start, Items, Cut;
      PageOnPath(env, root, d, stack, snum);
      PosInLeaf(env, root, d, stack, snum, r);
      Segment(env, root, d, stack, snum);
      var at, exact, found := NodeSearch(stack[d].pg, r);
      SetIndex(at);
      if !range && !exact {
        return false;
      }
      if !found {
        ok := NextLeaf(true);
        if !ok {
          eof := true;
          return;
        }
        PageOnPath(env, root, d, stack, snum);
        Segment(env, root, d, stack, snum);
      }
      ok := true;
    }

    /** mdb_cursor_first. */
    method GoFirst() returns (out: Outcome)
      requires Valid()
      modifies this
      ensures Valid() && (root == NO_ROOT <==> Items(root) == [])
      ensures if root == NO_ROOT then out == Missing && !initialized else initialized && Index() == 0 && out == At(Items(root)[0])
    {
      hide PageOk, Linked, Start, Items;
      EmptyRoot(env, root, d);
      if !initialized || snum > 1 {
        var ok := Search(First);
        if !ok { return Missing; }
      } else {
        NoSibling(env, root, d, stack, snum, true);
      }
      PageOnPath(env, root, d, stack, snum);
      initialized, eof := true, false;
      SetIndex(0);
      out := Current();
    }

    /** mdb_cursor_last. */
    method GoLast() returns (out: Outcome)
      requires Valid()
      modifies this
      ensures Valid() && (root == NO_ROOT <==> Items(root) == [])
      ensures root == NO_ROOT ==> out == Missing && !initialized
      ensures root != NO_ROOT ==> initialized && Index() == |Items(root)| - 1 && stack[d].ki + 1 == NumKeys(stack[d].pg)
      ensures root != NO_ROOT ==> out == At(Items(root)[|Items(root)| - 1])
    {
      hide PageOk, Linked, Start, Items;
      EmptyRoot(env, root, d);
      if !initialized || snum > 1 {
        var ok := Search(Last);
        if !ok { return Missing; }
      } else {
        NoSibling(env, root, d, stack, snum, true);
      }
      PageOnPath(env, root, d, stack, snum);
      SetIndex(NumKeys(stack[d].pg) - 1);
      initialized, eof := true, true;
      out := Current();
    }

    /** The index that mdb_cursor_next goes to. */
    ghost function NextIndex(): nat reads this
      requires Valid()
    { if !initialized then 0 else if stack[d].ki < NumKeys(stack[d].pg) then Index() + 1 else Index() }

    /** mdb_cursor_next: the entries come in order, and none is left out. */
    method GoNext() returns (out: Outcome)
      requires Valid()
      modifies this
      ensures Valid() && (initialized <==> root != NO_ROOT)
      ensures old(NextIndex()) < |Items(root)| ==> out == At(Items(root)[old(NextIndex())]) && Index() == old(NextIndex())
      ensures old(NextIndex()) >= |Items(root)| ==> out == Missing
    {
      hide PageOk, Linked, Start, Items;
      if !initialized {
        out := GoFirst();
        return;
      }
      PageOnPath(env, root, d, stack, snum);
      Segment(env, root, d, stack, snum);
      if eof {
        if stack[d].ki >= NumKeys(stack[d].pg) - 1 {
          return Missing;
        }
        eof := false;
      }
      if stack[d].ki + 1 >= NumKeys(stack[d].pg) {
        var ok := NextLeaf(true);
        if !ok {
          eof := true;
          return Missing;
        }
      } else {
        SetIndex(stack[d].ki + 1);
      }
      out := Current();
    }

    /** One past the entry that mdb_cursor_prev goes to. */
    ghost function PrevIndex(): nat reads this
      requires Valid()
    { if !initialized then |Items(root)| else Index() }

    /** mdb_cursor_prev: the entries come in reverse order. */
    method GoPrev() returns (out: Outcome)
      requires Valid()
      modifies this
      ensures Valid() && (initialized <==> root != NO_ROOT)
      ensures old(PrevIndex()) <= |Items(root)|
      ensures old(PrevIndex()) > 0 ==> out == At(Items(root)[old(PrevIndex()) - 1]) && Index() == old(PrevIndex()) - 1
      ensures old(PrevIndex()) == 0 ==> out == Missing
    {
      hide PageOk, Linked, Start, Items;
      if !initialized {
        out := GoLast();
        if root == NO_ROOT { return; }
        SetIndex(stack[d].ki + 1);
        PageOnPath(env, root, d, stack, snum);
      }
      PageOnPath(env, root, d, stack, snum);
      Segment(env, root, d, stack, snum);
      eof := false;
      if stack[d].ki == 0 {
        var ok := NextLeaf(false);
        if !ok {
          return Missing;
        }
        SetIndex(NumKeys(stack[d].pg) - 1);
      } else {
        SetIndex(stack[d].ki - 1);
      }
      out := Current();
    }
  }
}
