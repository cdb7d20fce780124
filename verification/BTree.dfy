/** The B+tree of mdb.c on values: pages are tree nodes, a page number is the subtree below it.
  *
  * Keys are compared by a user-supplied total order, so a key is its place in that order (a
  * real number: every countable order embeds in the reals) and its length in bytes.
  */
module BTree {
  import opened SplitPoint

  datatype Option<+T> = None | Some(value: T)

  datatype Key = Key(rank: real, size: nat)
  datatype Data = Data(id: int, size: nat)

  /** A leaf node; `big` is F_BIGDATA: the data is on overflow pages. */
  datatype Entry = Entry(key: Key, data: Data, big: bool)

  /** `seps[i]` is the key of branch node i + 1; node 0 has no key. */
  datatype Tree = Leaf(es: seq<Entry>) | Branch(kids: seq<Tree>, seps: seq<Key>)

  const MAXKEY := 511
  const FILL_THRESHOLD := 250

  function Even(n: nat): nat { (n + 1) / 2 * 2 }

  /** The environment: page size, with PAGEHDRSZ 16, NODESIZE 8 and 2-byte slots. */
  datatype Env = Env(psize: nat) {
    predicate Ok() { 4096 <= psize <= 0x8000 && psize % 2 == 0 }
    function Pmax(): nat { if psize < 16 then 0 else psize - 16 }
    function Nodemax(): int { Pmax() / 2 / 2 * 2 - 2 }
  }

  /** Bytes a node takes in its page, slot included. */
  function EntrySize(e: Entry): nat { Even(8 + e.key.size + (if e.big then 8 else e.data.size)) + 2 }
  function SepSize(k: Key): nat { Even(8 + k.size) + 2 }

  function LeafSizes(es: seq<Entry>): (s: seq<nat>)
    ensures |s| == |es| && forall i :: 0 <= i < |es| ==> s[i] == EntrySize(es[i])
  { seq(|es|, i requires 0 <= i < |es| => EntrySize(es[i])) }

  function BranchSizes(seps: seq<Key>): (s: seq<nat>)
    ensures |s| == |seps| + 1 && s[0] == HEADER && forall i :: 0 < i <= |seps| ==> s[i] == SepSize(seps[i - 1])
  { [HEADER] + seq(|seps|, i requires 0 <= i < |seps| => SepSize(seps[i])) }

  function LeafUsed(es: seq<Entry>): nat { Bytes(LeafSizes(es), 0, |es|) }
  function BranchUsed(seps: seq<Key>): nat { Bytes(BranchSizes(seps), 0, |seps| + 1) }

  function Used(t: Tree): nat {
    match t
    case Leaf(es) => LeafUsed(es)
    case Branch(_, seps) => BranchUsed(seps)
  }

  function NumKeys(t: Tree): nat {
    match t
    case Leaf(es) => |es|
    case Branch(kids, _) => |kids|
  }

  // ----- What a tree holds -----

  function Items(t: Tree): seq<Entry>
    decreases t, 0
  {
    match t
    case Leaf(es) => es
    case Branch(kids, _) => Flat(kids)
  }

  function Flat(kids: seq<Tree>): seq<Entry>
    decreases kids
  { if kids == [] then [] else Items(kids[0]) + Flat(kids[1..]) }

  /** The first index whose key is at or above r: mdb_node_search on a leaf. */
  function Pos(es: seq<Entry>, r: real): (i: nat)
    ensures i <= |es|
    ensures i < |es| ==> es[i].key.rank >= r
    ensures forall j :: 0 <= j < i ==> es[j].key.rank < r
  { PosFrom(es, r, 0) }

  function PosFrom(es: seq<Entry>, r: real, k: nat): (i: nat)
    requires k <= |es|
    ensures k <= i <= |es|
    ensures i < |es| ==> es[i].key.rank >= r
    ensures forall j :: k <= j < i ==> es[j].key.rank < r
    decreases |es| - k
  { if k == |es| || es[k].key.rank >= r then k else PosFrom(es, r, k + 1) }

  predicate Has(es: seq<Entry>, r: real) { Pos(es, r) < |es| && es[Pos(es, r)].key.rank == r }

  /** The child to follow: the last one whose separator is at or below r. */
  function ChildIndex(seps: seq<Key>, r: real): (i: nat)
    ensures i <= |seps|
    ensures i < |seps| ==> seps[i].rank > r
    ensures forall j :: 0 <= j < i ==> seps[j].rank <= r
  { ChildFrom(seps, r, 0) }

  function ChildFrom(seps: seq<Key>, r: real, k: nat): (i: nat)
    requires k <= |seps|
    ensures k <= i <= |seps|
    ensures i < |seps| ==> seps[i].rank > r
    ensures forall j :: k <= j < i ==> seps[j].rank <= r
    decreases |seps| - k
  { if k == |seps| || seps[k].rank > r then k else ChildFrom(seps, r, k + 1) }

  // ----- Well-formed trees -----

  /** Uniform depth: d levels of branches above the leaves. */
  predicate Shaped(t: Tree, d: nat) {
    match t
    case Leaf(_) => d == 0
    case Branch(kids, seps) => d > 0 && |kids| == |seps| + 1 && forall i :: 0 <= i < |kids| ==> Shaped(kids[i], d - 1)
  }

  predicate EntryOk(env: Env, e: Entry) {
    && 1 <= e.key.size <= MAXKEY
    && (!e.big ==> 8 + e.key.size + e.data.size <= env.Nodemax())
  }

  predicate SortedEntries(es: seq<Entry>) {
    forall i, j :: 0 <= i < j < |es| ==> es[i].key.rank < es[j].key.rank
  }

  predicate SortedSeps(seps: seq<Key>) {
    forall i, j :: 0 <= i < j < |seps| ==> seps[i].rank < seps[j].rank
  }

  predicate Below(es: seq<Entry>, r: real) { forall e :: e in es ==> e.key.rank < r }
  predicate From(es: seq<Entry>, r: real) { forall e :: e in es ==> r <= e.key.rank }

  /** A page that is not the root holds at least one entry, or two children. */
  predicate Min(t: Tree) {
    match t
    case Leaf(es) => |es| >= 1
    case Branch(kids, _) => |kids| >= 2
  }

  predicate LeafOk(env: Env, es: seq<Entry>) {
    && SortedEntries(es)
    && (forall i :: 0 <= i < |es| ==> EntryOk(env, es[i]))
    && LeafUsed(es) <= env.Pmax()
  }

  function Parts(kids: seq<Tree>): (p: seq<seq<Entry>>)
    ensures |p| == |kids| && forall i :: 0 <= i < |kids| ==> p[i] == Items(kids[i])
  { seq(|kids|, i requires 0 <= i < |kids| => Items(kids[i])) }

  predicate SepOk(sep: Key) { 1 <= sep.size <= MAXKEY }

  /** Separators are in order, and each keeps the entries on its two sides apart. */
  predicate Apart(parts: seq<seq<Entry>>, seps: seq<Key>) {
    && |parts| == |seps| + 1
    && SortedSeps(seps)
    && (forall i :: 0 <= i < |seps| ==> SepOk(seps[i]))
    && (forall i {:trigger parts[i]} :: 0 <= i < |seps| ==> Below(parts[i], seps[i].rank))
    && (forall i {:trigger parts[i]} :: 0 < i < |parts| ==> From(parts[i], seps[i - 1].rank))
  }

  /** A tree of uniform depth d whose pages hold what they must and no more than fits.  The root
    * page itself may hold fewer nodes than Min asks. */
  predicate Wf(env: Env, t: Tree, d: nat)
    decreases t
  {
    match t
    case Leaf(es) => d == 0 && LeafOk(env, es)
    case Branch(kids, seps) =>
      && d > 0
      && Apart(Parts(kids), seps)
      && BranchUsed(seps) <= env.Pmax()
      && (forall i :: 0 <= i < |kids| ==> Wf(env, kids[i], d - 1) && Min(kids[i]))
  }

  // ----- Insertion: mdb_cursor_put, mdb_page_split -----

  /** The outcome for one page: changed in place, split in two, or MDB_PAGE_FULL. */
  datatype Ins = One(t: Tree) | Two(l: Tree, sep: Key, r: Tree) | Full

  function LeafPage(env: Env, es: seq<Entry>, newindx: nat): Page { Page(LeafSizes(es), newindx, true, env.Pmax()) }
  function BranchPage(env: Env, seps: seq<Key>, newindx: nat): Page { Page(BranchSizes(seps), newindx, false, env.Pmax()) }

  /** Split a leaf; the new entry is already at newindx. */
  function CutLeaf(env: Env, es: seq<Entry>, newindx: nat): Ins
    requires |es| >= 3 && newindx < |es|
  {
    var p := LeafPage(env, es, newindx);
    var s := SplitIndex(p);
    if BothFit(p, s) then Two(Leaf(es[..s]), es[s].key, Leaf(es[s..])) else Full
  }

  /** Split a branch; the new separator is already that of node newindx. */
  function CutBranch(env: Env, kids: seq<Tree>, seps: seq<Key>, newindx: nat): (res: Ins)
    requires |kids| == |seps| + 1 && |kids| >= 3 && newindx < |kids|
    ensures BranchIns(res)
  {
    var p := BranchPage(env, seps, newindx);
    var s := SplitIndex(p);
    if BothFit(p, s) then Two(Branch(kids[..s], seps[..s - 1]), seps[s - 1], Branch(kids[s..], seps[s..])) else Full
  }

  function InsertAt<T>(s: seq<T>, i: nat, x: T): seq<T>
    requires i <= |s|
  { s[..i] + [x] + s[i..] }

  /** One element gives way to two. */
  function Split<T>(s: seq<T>, i: nat, l: T, r: T): seq<T>
    requires i < |s|
  { s[..i] + [l, r] + s[i + 1..] }

  function RemoveAt<T>(s: seq<T>, i: nat): seq<T>
    requires i < |s|
  { s[..i] + s[i + 1..] }

  /** Add an entry to a leaf, splitting it when there is no room.  (Two entries always fit.) */
  function PlaceEntry(env: Env, rest: seq<Entry>, pos: nat, e: Entry): Ins
    requires pos <= |rest|
  {
    var es := InsertAt(rest, pos, e);
    if LeafUsed(rest) + EntrySize(e) <= env.Pmax() || |es| < 3 then One(Leaf(es)) else CutLeaf(env, es, pos)
  }

  /** Child i became l and r: add the separator, splitting the branch when there is no room. */
  function PlaceSep(env: Env, kids: seq<Tree>, seps: seq<Key>, i: nat, l: Tree, sep: Key, r: Tree): (res: Ins)
    requires |kids| == |seps| + 1 && i < |kids|
    ensures BranchIns(res)
  {
    var kids' := Split(kids, i, l, r);
    var seps' := InsertAt(seps, i, sep);
    if BranchUsed(seps) + 8 + sep.size + 2 <= env.Pmax() || |kids'| < 3 then One(Branch(kids', seps'))
    else CutBranch(env, kids', seps', i + 1)
  }

  function NewEntry(env: Env, k: Key, v: Data): Entry { Entry(k, v, 8 + k.size + v.size > env.Nodemax()) }

  /** Overwritten in place: data of the same size, or an overflow page that is dirty and large
    * enough (`reuse`). */
  predicate InPlace(was: Entry, v: Data, reuse: bool) {
    if was.big then reuse else v.size == was.data.size
  }

  /** What happened to child i is passed on to its parent. */
  function Lift(env: Env, kids: seq<Tree>, seps: seq<Key>, i: nat, below: Ins): Ins
    requires |kids| == |seps| + 1 && i < |kids|
  {
    match below
    case One(c) => One(Branch(kids[i := c], seps))
    case Two(l, sep, r) => PlaceSep(env, kids, seps, i, l, sep, r)
    case Full => Full
  }

  /** `d` is md_depth less one. */
  function PutIn(env: Env, t: Tree, d: nat, k: Key, v: Data, reuse: bool): Ins
    requires Shaped(t, d)
    decreases d
  {
    match t
    case Leaf(es) =>
      var pos := Pos(es, k.rank);
      if !Has(es, k.rank) then PlaceEntry(env, es, pos, NewEntry(env, k, v))
      else if InPlace(es[pos], v, reuse) then One(Leaf(es[pos := es[pos].(data := v)]))
      else PlaceEntry(env, RemoveAt(es, pos), pos, NewEntry(env, k, v))
    case Branch(kids, seps) =>
      var i := ChildIndex(seps, k.rank);
      Lift(env, kids, seps, i, PutIn(env, kids[i], d - 1, k, v, reuse))
  }

  // ----- Deletion: mdb_rebalance, mdb_node_move, mdb_page_merge, mdb_update_key -----

  /** The outcome for one page: settled; changed, so that mdb_rebalance must look at it; split in
    * two by a longer separator; or MDB_PAGE_FULL. */
  datatype Del = Settled(t: Tree) | Changed(t: Tree) | Grew(l: Tree, sep: Key, r: Tree) | Failed

  /** The lowest key below a page: mdb_page_search_lowest. */
  function Low(t: Tree): Key {
    match t
    case Leaf(es) => if es == [] then Key(0.0, 0) else es[0].key
    case Branch(kids, _) => if kids == [] then Key(0.0, 0) else Low(kids[0])
  }

  predicate FilledTo(env: Env, t: Tree, thresh: nat) { 1000 * Used(t) / (if env.Pmax() == 0 then 1 else env.Pmax()) >= thresh }

  function MinKeys(t: Tree): nat { if t.Leaf? then 1 else 2 }
  function Threshold(t: Tree): nat { if t.Leaf? then FILL_THRESHOLD else 1 }

  predicate NeedsNothing(env: Env, t: Tree) { FilledTo(env, t, Threshold(t)) && NumKeys(t) >= MinKeys(t) }

  predicate CanLend(env: Env, t: Tree) { FilledTo(env, t, Threshold(t)) && NumKeys(t) > MinKeys(t) }

  /** Two neighbours and their separator after a node moved between them; `bytes` is the most the
    * receiving page holds on the way. */
  datatype Moved = Moved(a: Tree, sep: Key, b: Tree, bytes: int)

  predicate Local(t: Tree) { t.Branch? ==> |t.kids| == |t.seps| + 1 }

  predicate Siblings(a: Tree, b: Tree) { Local(a) && Local(b) && a.Leaf? == b.Leaf? }

  /** The first node of b goes to the end of a. */
  function MoveFromRight(a: Tree, b: Tree): Moved
    requires Siblings(a, b) && NumKeys(b) >= 2
  {
    if a.Leaf? then
      Moved(Leaf(a.es + [b.es[0]]), b.es[1].key, Leaf(b.es[1..]), LeafUsed(a.es + [b.es[0]]))
    else
      var seps := a.seps + [Low(b.kids[0])];
      Moved(Branch(a.kids + [b.kids[0]], seps), b.seps[0], Branch(b.kids[1..], b.seps[1..]), BranchUsed(seps))
  }

  /** The last node of a goes to the front of b.  In a branch the old first node of b gets its key first, so
    * that for a moment all nodes have keys. */
  function MoveFromLeft(a: Tree, b: Tree): Moved
    requires Siblings(a, b) && NumKeys(a) >= 2
  {
    if a.Leaf? then
      var n := |a.es| - 1;
      Moved(Leaf(a.es[..n]), a.es[n].key, Leaf([a.es[n]] + b.es), LeafUsed([a.es[n]] + b.es))
    else
      var n := |a.kids| - 1;
      var seps := [Low(b.kids[0])] + b.seps;
      Moved(Branch(a.kids[..n], a.seps[..n - 1]), a.seps[n - 1], Branch([a.kids[n]] + b.kids, seps),
            SepSize(a.seps[n - 1]) + BranchUsed(seps) - HEADER)
  }

  function Merged(a: Tree, b: Tree): Tree
    requires Siblings(a, b)
  {
    if a.Leaf? then Leaf(a.es + b.es)
    else Branch(a.kids + b.kids, a.seps + [Low(b.kids[0])] + b.seps)
  }

  /** mdb_update_key on separator j: the page is split if the longer key has no room. */
  function UpdateSep(env: Env, kids: seq<Tree>, seps: seq<Key>, j: nat, sep: Key): (res: Del)
    requires |kids| == |seps| + 1 && j < |seps|
    ensures BranchDel(res)
  {
    var seps' := seps[j := sep];
    if Even(sep.size) > Even(seps[j].size) && BranchUsed(seps) + Even(sep.size) - Even(seps[j].size) > env.Pmax() && |kids| >= 3
    then AsDel(CutBranch(env, kids, seps', j + 1))
    else Settled(Branch(kids, seps'))
  }

  /** The pages of an outcome for a branch are branches. */
  predicate BranchDel(r: Del) {
    match r
    case Settled(t) => Local(t) && t.Branch?
    case Changed(t) => Local(t) && t.Branch?
    case Grew(a, _, b) => Local(a) && a.Branch? && Local(b) && b.Branch?
    case Failed => true
  }

  predicate BranchIns(r: Ins) {
    match r
    case One(t) => Local(t) && t.Branch?
    case Two(a, _, b) => Local(a) && a.Branch? && Local(b) && b.Branch?
    case Full => true
  }

  function AsDel(r: Ins): (d: Del)
    ensures BranchIns(r) ==> BranchDel(d)
  {
    match r
    case One(t) => Settled(t)
    case Two(l, s, r) => Grew(l, s, r)
    case Full => Failed
  }

  /** Children j and j + 1 give way to the pair after a move. */
  function Moving(env: Env, kids: seq<Tree>, seps: seq<Key>, j: nat, m: Moved): (res: Del)
    requires |kids| == |seps| + 1 && j < |seps|
    ensures BranchDel(res)
  {
    if m.bytes > env.Pmax() then Failed
    else UpdateSep(env, kids[j := m.a][j + 1 := m.b], seps, j, m.sep)
  }

  /** Children j and j + 1 are merged; the branch lost a node. */
  function Merging(env: Env, kids: seq<Tree>, seps: seq<Key>, j: nat, m: Tree): (res: Del)
    requires |kids| == |seps| + 1 && j < |seps|
    ensures BranchDel(res)
  {
    if Used(m) > env.Pmax() then Failed
    else Changed(Branch(kids[..j] + [m] + kids[j + 2..], RemoveAt(seps, j)))
  }

  /** Children j and j + 1, one of them too small: the other lends a node, or they are merged. */
  function Balance(env: Env, kids: seq<Tree>, seps: seq<Key>, j: nat, fromLeft: bool): (res: Del)
    requires |kids| == |seps| + 1 && j < |seps| && Siblings(kids[j], kids[j + 1])
    ensures BranchDel(res)
  {
    if fromLeft && CanLend(env, kids[j]) then Moving(env, kids, seps, j, MoveFromLeft(kids[j], kids[j + 1]))
    else if !fromLeft && CanLend(env, kids[j + 1]) then Moving(env, kids, seps, j, MoveFromRight(kids[j], kids[j + 1]))
    else Merging(env, kids, seps, j, Merged(kids[j], kids[j + 1]))
  }

  predicate AtDepth(t: Tree, d: nat) { Local(t) && t.Leaf? == (d == 0) }

  lemma ShapedAtDepth(t: Tree, d: nat)
    requires Shaped(t, d)
    ensures AtDepth(t, d)
  {
  }

  predicate DelLocal(r: Del, d: nat) {
    match r
    case Settled(t) => AtDepth(t, d)
    case Changed(t) => AtDepth(t, d)
    case Grew(a, _, b) => AtDepth(a, d) && AtDepth(b, d)
    case Failed => true
  }

  /** Child i of a branch is now c.  mdb_rebalance on c: the first child turns to its right
    * neighbour, any other to its left one. */
  function AfterChange(env: Env, kids: seq<Tree>, seps: seq<Key>, i: nat, c: Tree, d: nat): (res: Del)
    requires |kids| == |seps| + 1 && i < |kids| && AtDepth(c, d) && forall j :: 0 <= j < |kids| ==> AtDepth(kids[j], d)
    ensures DelLocal(res, d + 1)
  {
    var kids' := kids[i := c];
    if |kids| == 1 then Changed(Branch(kids', seps))
    else
      var j := if i == 0 then 0 else i - 1;
      assert AtDepth(kids'[j], d) && AtDepth(kids'[j + 1], d);
      if NeedsNothing(env, c) then Settled(Branch(kids', seps)) else Balance(env, kids', seps, j, i > 0)
  }

  /** The recursion of mdb_cursor_del0: delete below, then rebalance on the way up. */
  function DelIn(env: Env, t: Tree, d: nat, r: real): (res: Del)
    requires Shaped(t, d)
    ensures DelLocal(res, d)
    decreases d
  {
    match t
    case Leaf(es) => if Has(es, r) then Changed(Leaf(RemoveAt(es, Pos(es, r)))) else Settled(t)
    case Branch(kids, seps) =>
      var i := ChildIndex(seps, r);
      assert forall j :: 0 <= j < |kids| ==> AtDepth(kids[j], d - 1) by {
        forall j | 0 <= j < |kids| ensures AtDepth(kids[j], d - 1) { ShapedAtDepth(kids[j], d - 1); }
      }
      match DelIn(env, kids[i], d - 1, r)
      case Settled(c) => Settled(Branch(kids[i := c], seps))
      case Changed(c) => AfterChange(env, kids, seps, i, c, d - 1)
      case Grew(a, sep, b) => AsDel(PlaceSep(env, kids, seps, i, a, sep, b))
      case Failed => Failed
  }

  // ----- Searching -----

  /** mdb_get: follow the separators, then look into the leaf. */
  function Find(t: Tree, d: nat, r: real): Option<Data>
    requires Shaped(t, d)
    decreases d
  {
    match t
    case Leaf(es) => if Has(es, r) then Some(es[Pos(es, r)].data) else None
    case Branch(kids, seps) => Find(kids[ChildIndex(seps, r)], d - 1, r)
  }

  /** mdb_cursor_set with MDB_SET_RANGE: if the leaf has no key at or above r, mdb_cursor_sibling
    * goes up to the first ancestor with a right sibling and down to that sibling's first key. */
  function Seek(t: Tree, d: nat, r: real): Option<Entry>
    requires Shaped(t, d)
    decreases d
  {
    match t
    case Leaf(es) => if Pos(es, r) < |es| then Some(es[Pos(es, r)]) else None
    case Branch(kids, seps) =>
      var i := ChildIndex(seps, r);
      match Seek(kids[i], d - 1, r)
      case Some(e) => Some(e)
      case None => if i + 1 < |kids| then First(kids[i + 1], d - 1) else None
  }

  /** The first entry of a page. */
  function First(t: Tree, d: nat): Option<Entry>
    requires Shaped(t, d)
    decreases d
  {
    match t
    case Leaf(es) => if es == [] then None else Some(es[0])
    case Branch(kids, _) => First(kids[0], d - 1)
  }

  // ----- Whole databases -----

  /** A database: no root page (P_INVALID), or a root and the levels of branches below it. */
  datatype Db = NoRoot | Root(t: Tree, d: nat)

  datatype Result<+T> = Ok(value: T) | BadValSize | NotFound | PageFull

  function Joined(l: Tree, sep: Key, r: Tree, d: nat): Db { Root(Branch([l, r], [sep]), d + 1) }

  predicate DbShaped(db: Db) { db.Root? ==> Shaped(db.t, db.d) }

  /** mdb_get. */
  function Get(db: Db, k: Key): Result<Data>
    requires DbShaped(db)
  {
    if k.size == 0 then BadValSize
    else if db.NoRoot? then NotFound
    else match Find(db.t, db.d, k.rank) case Some(v) => Ok(v) case None => NotFound
  }

  /** mdb_cursor_get with MDB_SET_RANGE. */
  function SetRange(db: Db, k: Key): Result<Entry>
    requires DbShaped(db)
  {
    if k.size == 0 then BadValSize
    else if db.NoRoot? then NotFound
    else match Seek(db.t, db.d, k.rank) case Some(e) => Ok(e) case None => NotFound
  }

  /** mdb_put. */
  function Put(env: Env, db: Db, k: Key, v: Data, reuse: bool): Result<Db>
    requires DbShaped(db)
  {
    if k.size == 0 || k.size > MAXKEY then BadValSize
    else if db.NoRoot? then Ok(Root(Leaf([NewEntry(env, k, v)]), 0))
    else
      match PutIn(env, db.t, db.d, k, v, reuse)
      case One(t) => Ok(Root(t, db.d))
      case Two(l, sep, r) => Ok(Joined(l, sep, r, db.d))
      case Full => PageFull
  }

  /** mdb_rebalance on the root page. */
  function RebalanceRoot(env: Env, t: Tree, d: nat): Db {
    if NeedsNothing(env, t) then Root(t, d)
    else if NumKeys(t) == 0 then NoRoot
    else if t.Branch? && NumKeys(t) == 1 && d > 0 then Root(t.kids[0], d - 1)
    else Root(t, d)
  }

  /** mdb_del. */
  function Delete(env: Env, db: Db, k: Key): Result<Db>
    requires DbShaped(db)
  {
    if k.size == 0 then BadValSize
    else if db.NoRoot? || Find(db.t, db.d, k.rank).None? then NotFound
    else
      match DelIn(env, db.t, db.d, k.rank)
      case Settled(t) => Ok(Root(t, db.d))
      case Changed(t) => Ok(RebalanceRoot(env, t, db.d))
      case Grew(l, sep, r) => Ok(Joined(l, sep, r, db.d))
      case Failed => PageFull
  }
}
