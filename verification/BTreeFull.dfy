/** Databases for which a put and a deletion fail with MDB_PAGE_FULL, though both are well formed and the map
  * is nearly empty: a page is cut in the middle, and the larger nodes are all in one half. */
module BTreeFull {
  import opened SplitPoint
  import opened BTree
  import opened BTreeItems
  import opened BTreePut
  import opened BTreeMap
  import opened BTreeRebalance

  const ENV := Env(4096)

  // ----- A put -----

  /** 16 small entries and 16 large ones on one leaf. */
  const CROWDED: seq<Entry> := seq(32, i requires 0 <= i < 32 =>
    if i < 16 then Entry(Key(i as real, 1), Data(i, 1), false) else Entry(Key(i as real, 2), Data(i, 230), false))

  const NEW_KEY := Key(19.5, 3)
  const NEW_DATA := Data(99, 241)

  lemma CrowdedSizes()
    ensures forall i :: 0 <= i < 32 ==> EntrySize(CROWDED[i]) == if i < 16 then 12 else 242
    ensures EntryOk(ENV, NewEntry(ENV, NEW_KEY, NEW_DATA)) && EntrySize(NewEntry(ENV, NEW_KEY, NEW_DATA)) == 254
  {
  }

  lemma CrowdedPlace()
    ensures Pos(CROWDED, NEW_KEY.rank) == 20 && !Has(CROWDED, NEW_KEY.rank)
  {
    PosUnique(CROWDED, NEW_KEY.rank, 20);
  }

  lemma CrowdedWithNew()
    ensures LeafSizes(InsertAt(CROWDED, 20, NewEntry(ENV, NEW_KEY, NEW_DATA))) == UNLUCKY.sizes
  {
    hide EntrySize;
    CrowdedSizes();
    var e := NewEntry(ENV, NEW_KEY, NEW_DATA);
    var es := InsertAt(CROWDED, 20, e);
    assert forall i :: 0 <= i <= 32 ==> es[i] == if i < 20 then CROWDED[i] else if i == 20 then e else CROWDED[i - 1];
  }

  lemma CrowdedUsed()
    ensures LeafUsed(CROWDED) == 4064
    ensures LeafPage(ENV, InsertAt(CROWDED, 20, NewEntry(ENV, NEW_KEY, NEW_DATA)), 20) == UNLUCKY
  {
    hide EntrySize, Bytes;
    CrowdedSizes();
    CrowdedWithNew();
    BytesOfEqual(LeafSizes(CROWDED), 0, 16, 12);
    BytesOfEqual(LeafSizes(CROWDED), 16, 32, 242);
    BytesSplit(LeafSizes(CROWDED), 0, 16, 32);
  }

  lemma CrowdedOk()
    ensures DbOk(ENV, Root(Leaf(CROWDED), 0)) && Shaped(Leaf(CROWDED), 0)
  {
    hide LeafUsed, EntrySize;
    CrowdedUsed();
  }

  lemma UnluckyCannotSplit()
    ensures !Splittable(UNLUCKY)
  {
    UnluckyBytes(UNLUCKY.sizes);
  }

  lemma CrowdedFull()
    ensures !RoomInLeaf(ENV, CROWDED, NEW_KEY, NEW_DATA, false)
  {
    hide EntrySize, LeafUsed, UNLUCKY, CROWDED, Splittable, LeafPage, Pos, Has;
    CrowdedSizes();
    CrowdedUsed();
    CrowdedPlace();
    UnluckyCannotSplit();
  }

  /** Putting one more entry among the large ones fails. */
  lemma UnluckyPut()
    ensures var db := Root(Leaf(CROWDED), 0);
      ENV.Ok() && DbOk(ENV, db) && DbShaped(db) && Put(ENV, db, NEW_KEY, NEW_DATA, false).PageFull?
  {
    hide CROWDED, RoomInLeaf, Put, Wf;
    CrowdedOk();
    CrowdedFull();
    PutCorrect(ENV, Root(Leaf(CROWDED), 0), NEW_KEY, NEW_DATA, false);
  }

  // ----- A deletion -----

  /** 34 leaves.  Keys and separators are short, but for those of leaves 2 to 16 and the last key of leaf 0. */
  function Page(i: nat): Tree {
    if i == 0 then Leaf([Entry(Key(0.0, 1), Data(0, 1000), false), Entry(Key(1.0, 244), Data(1, 0), false)])
    else if i == 1 then Leaf([Entry(Key(2.0, 1), Data(2, 1000), false), Entry(Key(3.0, 1), Data(3, 0), false)])
    else Leaf([Entry(FirstKey(i), Data(i, 1200), false)])
  }

  function FirstKey(i: nat): Key {
    if i <= 1 then Key(2.0, 1) else Key((i + 2) as real, if i <= 16 then 246 else 1)
  }

  const PAGES: seq<Tree> := seq(34, i requires 0 <= i < 34 => Page(i))
  const SEPS: seq<Key> := seq(33, i requires 0 <= i < 33 => FirstKey(i + 1))
  const LONGER: seq<Key> := SEPS[0 := Key(1.0, 244)]

  lemma SepBytes(s: seq<nat>, first: nat)
    requires |s| == 34 && s[0] == HEADER && s[1] == first
    requires (forall i :: 2 <= i < 17 ==> s[i] == 256) && (forall i :: 17 <= i < 34 ==> s[i] == 12)
    ensures Bytes(s, 0, 17) == 3850 + first && Bytes(s, 0, 34) == 4054 + first
  {
    BytesOfEqual(s, 2, 17, 256);
    BytesOfEqual(s, 17, 34, 12);
    BytesSplit(s, 0, 2, 17);
    BytesSplit(s, 0, 17, 34);
    assert Bytes(s, 0, 1) == s[0];
  }

  lemma SepSizes()
    ensures var s := BranchSizes(SEPS);
      |s| == 34 && s[0] == HEADER && (forall i :: 1 <= i < 34 ==> s[i] == if 2 <= i < 17 then 256 else 12)
    ensures SepSize(LONGER[0]) == 254 && BranchSizes(LONGER) == BranchSizes(SEPS)[1 := 254]
  {
    forall i | 1 <= i < 34 ensures BranchSizes(SEPS)[i] == if 2 <= i < 17 then 256 else 12 {
      assert BranchSizes(SEPS)[i] == SepSize(FirstKey(i));
    }
  }

  lemma SepsUsed()
    ensures BranchUsed(SEPS) == 4066 && BranchUsed(LONGER) == 4308 && !Splittable(BranchPage(ENV, LONGER, 1))
  {
    hide Bytes, BranchSizes, FirstKey;
    SepSizes();
    SepBytes(BranchSizes(SEPS), 12);
    SepBytes(BranchSizes(LONGER), 254);
  }

  lemma PageOk(i: nat)
    requires i < 34
    ensures Wf(ENV, Page(i), 0) && Min(Page(i))
  {
    hide LeafUsed, Bytes;
    TwoEntriesFit(ENV, Page(i).es);
  }

  /** Leaf i lies between its separators. */
  lemma PageBetween(i: nat)
    requires i < 34
    ensures i > 0 ==> From(Items(Page(i)), SEPS[i - 1].rank)
    ensures i < 33 ==> Below(Items(Page(i)), SEPS[i].rank)
  {
  }

  lemma PagesApart()
    ensures Apart(Parts(PAGES), SEPS)
  {
    hide Page, FirstKey, Wf, Min, From, Below, Items;
    forall i | 0 <= i < 34 ensures i > 0 ==> From(Parts(PAGES)[i], SEPS[i - 1].rank) { PageBetween(i); }
    forall i | 0 <= i < 33 ensures Below(Parts(PAGES)[i], SEPS[i].rank) { PageBetween(i); }
    SepsOk();
  }

  lemma SepsOk()
    ensures SortedSeps(SEPS) && forall i :: 0 <= i < 33 ==> SepOk(SEPS[i])
  {
  }

  lemma PagesOk()
    ensures |PAGES| == 34 && |SEPS| == 33 && KidsOk(ENV, 0, PAGES, SEPS)
  {
    hide Page, FirstKey, Apart, Wf, Min;
    PagesApart();
    forall i | 0 <= i < 34 ensures Wf(ENV, PAGES[i], 0) && Min(PAGES[i]) { PageOk(i); }
  }

  lemma TreeOk()
    ensures Wf(ENV, Branch(PAGES, SEPS), 1) && Min(Branch(PAGES, SEPS)) && Shaped(Branch(PAGES, SEPS), 1)
  {
    hide KidsOk, Wf, PAGES, SEPS, BranchUsed, Shaped, Min, Splittable;
    PagesOk();
    SepsUsed();
    HalfOk(ENV, 0, PAGES, SEPS);
    WfShaped(ENV, Branch(PAGES, SEPS), 1);
  }

  const LEFT_OVER := Leaf([Entry(Key(3.0, 1), Data(3, 0), false)])

  /** What is left of leaf 1 is too small... */
  lemma TooSmall()
    ensures DelIn(ENV, PAGES[1], 0, 2.0) == Changed(LEFT_OVER) && !NeedsNothing(ENV, LEFT_OVER)
  {
    hide Bytes, LeafUsed;
    PosUnique(PAGES[1].es, 2.0, 0);
    assert RemoveAt(PAGES[1].es, 0) == LEFT_OVER.es;
    LeafUsedOne(LEFT_OVER.es[0]);
    assert LEFT_OVER.es == [LEFT_OVER.es[0]];
  }

  /** ... and leaf 0 can lend its last node, under a long key. */
  lemma Lends()
    ensures CanLend(ENV, PAGES[0]) && MoveFromLeft(PAGES[0], LEFT_OVER).sep == Key(1.0, 244)
  {
    hide Bytes, LeafUsed;
    LeafUsedTwo(PAGES[0].es[0], PAGES[0].es[1]);
    assert PAGES[0].es == [PAGES[0].es[0], PAGES[0].es[1]];
  }

  lemma LeafUsedTwo(a: Entry, b: Entry)
    ensures LeafUsed([a, b]) == EntrySize(a) + EntrySize(b)
  {
    var s := LeafSizes([a, b]);
    assert Bytes(s, 0, 2) == Bytes(s, 0, 1) + s[1] && Bytes(s, 0, 1) == s[0];
  }

  lemma WhereItIs()
    ensures ChildIndex(SEPS, 2.0) == 1
  {
    assert SEPS[0].rank == 2.0 && SEPS[1].rank == 4.0;
  }

  lemma IsThere()
    ensures Shaped(Branch(PAGES, SEPS), 1) && 2.0 in Map(Root(Branch(PAGES, SEPS), 1))
  {
    hide FirstKey, Wf, Map, Apart;
    TreeOk();
    WhereItIs();
    PosUnique(PAGES[1].es, 2.0, 0);
    GetCorrect(ENV, Root(Branch(PAGES, SEPS), 1), Key(2.0, 1));
  }

  lemma TooLong()
    ensures !RoomForLonger(ENV, SEPS, 0, Key(1.0, 244)) && |SEPS| == 33
  {
    hide BranchUsed, Splittable;
    SepsUsed();
  }

  lemma NoRoomInRoot()
    ensures Shaped(Branch(PAGES, SEPS), 1) && !RoomToDelete(ENV, Root(Branch(PAGES, SEPS), 1), Key(2.0, 1))
  {
    hide RoomForLonger, NeedsNothing, CanLend, MoveFromLeft, DelIn, ChildIndex, FirstKey, Wf;
    TreeOk();
    TooLong();
    TooSmall();
    Lends();
    WhereItIs();
    KidsAtDepth(PAGES, SEPS, 1);
    assert PAGES[1 := LEFT_OVER][0] == PAGES[0] && PAGES[1 := LEFT_OVER][1] == LEFT_OVER;
    RoomToDelIs(ENV, PAGES, SEPS, 1, 2.0);
  }

  lemma GoodDb()
    ensures var db := Root(Branch(PAGES, SEPS), 1); ENV.Ok() && DbOk(ENV, db) && DbShaped(db)
  {
    hide Wf, Shaped, FirstKey, Min;
    TreeOk();
  }

  /** Deleting a key from leaf 1 fails: the longer separator overfills the root, which cannot be split. */
  lemma UnluckyDelete()
    ensures var db := Root(Branch(PAGES, SEPS), 1);
      ENV.Ok() && DbOk(ENV, db) && DbShaped(db) && Delete(ENV, db, Key(2.0, 1)).PageFull?
  {
    hide *;
    GoodDb();
    NoRoomInRoot();
    IsThere();
    DeleteCorrect(ENV, Root(Branch(PAGES, SEPS), 1), Key(2.0, 1));
  }
}
