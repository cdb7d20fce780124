/** What mdb_get, MDB_SET_RANGE and mdb_put mean for the map that a database denotes. */
module BTreeMap {
  import opened SplitPoint
  import opened BTree
  import opened BTreeItems
  import opened BTreePut

  function DbItems(db: Db): seq<Entry> { if db.Root? then Items(db.t) else [] }

  /** The map from keys to data that a database stands for. */
  function Map(db: Db): map<real, Data> { Contents(DbItems(db)) }

  ghost predicate DbOk(env: Env, db: Db) {
    db.Root? ==> Wf(env, db.t, db.d) && Min(db.t)
  }

  lemma DbOkShaped(env: Env, db: Db)
    requires DbOk(env, db)
    ensures DbShaped(db)
  {
    if db.Root? { WfShaped(env, db.t, db.d); }
  }

  // ----- The entries of a tree are in order -----

  lemma {:induction false} FlatSorted(kids: seq<Tree>, seps: seq<Key>)
    requires Apart(Parts(kids), seps) && forall i :: 0 <= i < |kids| ==> SortedEntries(Parts(kids)[i])
    ensures SortedEntries(Flat(kids))
    decreases |kids|
  {
    var n := |kids| - 1;
    if n == 0 {
      FlatOne(kids[0]);
      assert kids == [kids[0]] && Parts(kids)[0] == Items(kids[0]);
    } else {
      var front := kids[..n];
      PartsCut(kids, n);
      ApartCut(Parts(kids), seps, n);
      FlatSorted(front, seps[..n - 1]);
      SeparatorCuts(kids, seps, n - 1);
      FlatCut(kids, n);
      FlatOne(kids[n]);
      assert kids[n..] == [kids[n]] && Parts(kids)[n] == Items(kids[n]);
      SortedConcat(Flat(front), Items(kids[n]), seps[n - 1].rank);
    }
  }

  lemma {:induction false} ItemsSorted(env: Env, t: Tree, d: nat)
    requires Wf(env, t, d)
    ensures SortedEntries(Items(t))
    decreases d
  {
    if t.Branch? {
      forall i | 0 <= i < |t.kids| ensures SortedEntries(Parts(t.kids)[i]) { ItemsSorted(env, t.kids[i], d - 1); }
      FlatSorted(t.kids, t.seps);
    }
  }

  // ----- Searching -----

  /** mdb_get finds a key if and only if the map has it, with its data. */
  lemma {:induction false} FindOk(env: Env, t: Tree, d: nat, r: real)
    requires Wf(env, t, d) && Shaped(t, d)
    ensures Find(t, d, r) == if Has(Items(t), r) then Some(Items(t)[Pos(Items(t), r)].data) else None
    decreases d
  {
    if t.Branch? {
      var i := ChildIndex(t.seps, r);
      SlotOfRank(t.kids, t.seps, r);
      FindOk(env, t.kids[i], d - 1, r);
      PosBetween(Flat(t.kids[..i]), Items(t.kids[i]), Flat(t.kids[i + 1..]), r);
      FlatUpdate(t.kids, i, t.kids[i]);
    }
  }

  /** mdb_get returns what the map has. */
  lemma GetCorrect(env: Env, db: Db, k: Key)
    requires DbOk(env, db) && DbShaped(db)
    ensures match Get(db, k)
      case Ok(v) => k.size > 0 && k.rank in Map(db) && Map(db)[k.rank] == v
      case NotFound => k.size > 0 && k.rank !in Map(db)
      case BadValSize => k.size == 0
      case PageFull => false
  {
    if db.Root? {
      FindOk(env, db.t, db.d, k.rank);
      ItemsSorted(env, db.t, db.d);
      ContentsAt(Items(db.t), k.rank);
    }
  }

  lemma {:induction false} FirstOk(env: Env, t: Tree, d: nat)
    requires Wf(env, t, d) && Min(t) && Shaped(t, d)
    ensures Items(t) != [] && First(t, d) == Some(Items(t)[0])
    decreases d
  {
    if t.Branch? {
      FirstOk(env, t.kids[0], d - 1);
      assert Items(t) == Items(t.kids[0]) + Flat(t.kids[1..]);
    }
  }

  lemma FirstOfRest(env: Env, kids: seq<Tree>, d: nat, i: nat)
    requires i < |kids| && Wf(env, kids[i], d) && Min(kids[i]) && Shaped(kids[i], d)
    ensures Flat(kids[i..]) != [] && First(kids[i], d) == Some(Flat(kids[i..])[0])
  {
    FirstOk(env, kids[i], d);
    assert kids[i..][0] == kids[i];
    assert Flat(kids[i..]) == Items(kids[i]) + Flat(kids[i..][1..]);
  }

  function AtPos(es: seq<Entry>, r: real): Option<Entry> { if Pos(es, r) < |es| then Some(es[Pos(es, r)]) else None }

  lemma AtPosBetween(a: seq<Entry>, x: seq<Entry>, b: seq<Entry>, r: real)
    requires Below(a, r) && AllAbove(b, r)
    ensures AtPos(a + x + b, r) == if AtPos(x, r).Some? then AtPos(x, r) else if b == [] then None else Some(b[0])
  {
    PosBetween(a, x, b, r);
  }

  lemma AtPosOfKid(kids: seq<Tree>, seps: seq<Key>, r: real, i: nat, x: seq<Entry>, b: seq<Entry>)
    requires Apart(Parts(kids), seps) && i == ChildIndex(seps, r) && i < |kids|
    requires x == Items(kids[i]) && b == Flat(kids[i + 1..])
    ensures AtPos(Flat(kids), r) == if AtPos(x, r).Some? then AtPos(x, r) else if b == [] then None else Some(b[0])
  {
    var a := Flat(kids[..i]);
    Surroundings(kids, seps, r, i, a, x, b);
    AtPosBetween(a, x, b, r);
  }

  lemma NextKid(env: Env, kids: seq<Tree>, d: nat, i: nat, b: seq<Entry>)
    requires i < |kids| && b == Flat(kids[i + 1..])
    requires i + 1 < |kids| ==> Wf(env, kids[i + 1], d) && Min(kids[i + 1]) && Shaped(kids[i + 1], d)
    ensures (if i + 1 < |kids| then First(kids[i + 1], d) else None) == if b == [] then None else Some(b[0])
  {
    if i + 1 < |kids| { FirstOfRest(env, kids, d, i + 1); }
  }

  /** MDB_SET_RANGE stops at the first entry at or above r. */
  lemma {:induction false} SeekOk(env: Env, t: Tree, d: nat, r: real)
    requires Wf(env, t, d) && Shaped(t, d)
    ensures Seek(t, d, r) == AtPos(Items(t), r)
    decreases d
  {
    hide Apart, Flat, First, LeafOk, Below, From, SepOk;
    match t
    case Leaf(es) =>
    case Branch(kids, seps) =>
      var i := ChildIndex(seps, r);
      var x, b := Items(kids[i]), Flat(kids[i + 1..]);
      SeekOk(env, kids[i], d - 1, r);
      AtPosOfKid(kids, seps, r, i, x, b);
      NextKid(env, kids, d - 1, i, b);
  }

  lemma LeastInMap(es: seq<Entry>, r: real)
    requires SortedEntries(es)
    ensures forall q :: q in Contents(es) && r <= q ==> AtPos(es, r).Some? && AtPos(es, r).value.key.rank <= q
    ensures AtPos(es, r).Some? ==> var e := AtPos(es, r).value;
      r <= e.key.rank && e.key.rank in Contents(es) && Contents(es)[e.key.rank] == e.data
  {
    forall q | q in Contents(es) && r <= q
      ensures AtPos(es, r).Some? && AtPos(es, r).value.key.rank <= q
    {
      ContentsAt(es, q);
      assert Pos(es, r) <= Pos(es, q);
    }
    if Pos(es, r) < |es| {
      PosUnique(es, es[Pos(es, r)].key.rank, Pos(es, r));
      ContentsAt(es, es[Pos(es, r)].key.rank);
    }
  }

  /** In terms of the map: the least key >= k, if there is one. */
  lemma SeekCorrect(env: Env, db: Db, k: Key)
    requires DbOk(env, db) && DbShaped(db)
    ensures match SetRange(db, k)
      case Ok(e) => k.size > 0 && k.rank <= e.key.rank && e in DbItems(db) && e.key.rank in Map(db) && Map(db)[e.key.rank] == e.data
        && (forall q :: q in Map(db) && k.rank <= q ==> e.key.rank <= q)
      case NotFound => k.size > 0 && forall q :: q in Map(db) ==> q < k.rank
      case BadValSize => k.size == 0
      case PageFull => false
  {
    if db.Root? {
      SeekOk(env, db.t, db.d, k.rank);
      ItemsSorted(env, db.t, db.d);
      LeastInMap(Items(db.t), k.rank);
    }
  }

  // ----- Insertion -----

  /** Every page that must take a node for the put has room for it or can be split. */
  predicate RoomToPut(env: Env, db: Db, k: Key, v: Data, reuse: bool)
    requires DbShaped(db)
  { db.Root? ==> RoomOnWay(env, db.t, db.d, k, v, reuse) }

  /** The entries after a put: the one under the key, if data is overwritten in place, is the old one with the
    * new data; otherwise it has the key and the data as given, on overflow pages exactly if it would be too
    * long for a page.  All others are as they were. */
  predicate EntriesPut(env: Env, was: seq<Entry>, now: seq<Entry>, k: Key, v: Data, reuse: bool) {
    var p := Pos(was, k.rank);
    var found := p < |was| && was[p].key.rank == k.rank;
    if found && (if was[p].big then reuse else v.size == was[p].data.size) then now == was[p := Entry(was[p].key, v, was[p].big)]
    else now == was[..p] + [Entry(k, v, 8 + k.size + v.size > env.Nodemax())] + was[if found then p + 1 else p..]
  }

  lemma PutIsEntries(env: Env, es: seq<Entry>, k: Key, v: Data, reuse: bool)
    ensures EntriesPut(env, es, PutItems(es, Stored(env, es, k, v, reuse)), k, v, reuse)
  {
    var p, e := Pos(es, k.rank), Stored(env, es, k, v, reuse);
    if Has(es, k.rank) { assert es[p := e] == es[..p] + [e] + es[p + 1..]; }
  }

  /** mdb_put: a well-formed database with the entry put in and all others as they were, so that it denotes
    * the updated map; MDB_BAD_VALSIZE if and only if the key
    * is too short or too long; MDB_PAGE_FULL if and only if a page on the way has no room and cannot be
    * split. */
  lemma PutCorrect(env: Env, db: Db, k: Key, v: Data, reuse: bool)
    requires env.Ok() && DbOk(env, db) && DbShaped(db)
    ensures match Put(env, db, k, v, reuse)
      case Ok(db') => SepOk(k) && RoomToPut(env, db, k, v, reuse)
        && DbOk(env, db') && DbShaped(db') && Map(db') == Map(db)[k.rank := v]
        && EntriesPut(env, DbItems(db), DbItems(db'), k, v, reuse)
      case BadValSize => !SepOk(k)
      case NotFound => false
      case PageFull => SepOk(k) && !RoomToPut(env, db, k, v, reuse)
  {
    hide RoomOnWay, EntriesPut, Stored, PutItems, Contents;
    if SepOk(k) {
      if db.NoRoot? {
        PutFirst(env, k, v);
      } else {
        PutInOk(env, db.t, db.d, k, v, reuse);
        ItemsSorted(env, db.t, db.d);
        var e := Stored(env, Items(db.t), k, v, reuse);
        StoredRank(env, Items(db.t), k, v, reuse);
        PutContents(Items(db.t), e);
        PutIsEntries(env, Items(db.t), k, v, reuse);
        match PutIn(env, db.t, db.d, k, v, reuse)
        case One(t) => DbOkShaped(env, Root(t, db.d));
        case Two(l, sep, r) => JoinedOk(env, l, sep, r, db.d);
        case Full =>
      }
    }
  }

  lemma PutFirst(env: Env, k: Key, v: Data)
    requires env.Ok() && SepOk(k)
    ensures var db := Root(Leaf([NewEntry(env, k, v)]), 0);
      DbOk(env, db) && DbShaped(db) && Map(db) == map[][k.rank := v] && Map(NoRoot) == map[]
      && forall reuse :: EntriesPut(env, [], DbItems(db), k, v, reuse)
  {
    var e := NewEntry(env, k, v);
    NewEntryOk(env, k, v);
    TwoEntriesFit(env, [e]);
    assert Contents([e]) == Contents([])[k.rank := v];
  }

  /** A root split: the new root page has two children. */
  lemma JoinedOk(env: Env, l: Tree, sep: Key, r: Tree, d: nat)
    requires env.Ok() && Wf(env, l, d) && Min(l) && Wf(env, r, d) && Min(r) && SepOk(sep)
    requires Below(Items(l), sep.rank) && From(Items(r), sep.rank)
    ensures DbOk(env, Joined(l, sep, r, d)) && DbShaped(Joined(l, sep, r, d))
    ensures DbItems(Joined(l, sep, r, d)) == Items(l) + Items(r)
  {
    var db := Joined(l, sep, r, d);
    BranchUsedOne(sep);
    SepSizeBounds(env, sep);
    FlatFour([], l, r, []);
    assert [] + [l, r] + [] == [l, r];
    BranchWf(env, d, [l, r], [sep]);
    DbOkShaped(env, db);
  }

  // ----- When a put cannot fail -----

  /** A put finds room if the pages on its way have fewer than 32 nodes. */
  lemma PutNeverFull(env: Env, db: Db, k: Key, v: Data, reuse: bool)
    requires env.Ok() && DbOk(env, db) && DbShaped(db) && SepOk(k)
    requires db.Root? ==> FewNodes(db.t, db.d, k.rank)
    ensures Put(env, db, k, v, reuse).Ok?
  {
    if db.Root? { FewHaveRoom(env, db.t, db.d, k, v, reuse); }
    PutCorrect(env, db, k, v, reuse);
  }
}
