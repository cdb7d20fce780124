/** Insertion into a B+tree: the tree stays well formed and denotes the updated map. */
module BTreePut {
  import opened SplitPoint
  import opened BTree
  import opened BTreeItems

  // ----- Splitting pages -----

  /** What splitting or changing a page leaves: well-formed pages with the entries `es`. */
  ghost predicate InsOk(env: Env, d: nat, es: seq<Entry>, res: Ins) {
    match res
    case One(t) => Wf(env, t, d) && Min(t) && Items(t) == es
    case Two(l, sep, r) =>
      && Wf(env, l, d) && Min(l) && Wf(env, r, d) && Min(r)
      && SepOk(sep) && Below(Items(l), sep.rank) && From(Items(r), sep.rank)
      && Items(l) + Items(r) == es
    case Full => true
  }

  lemma EntrySizeBounds(env: Env, e: Entry)
    requires env.Ok() && EntryOk(env, e)
    ensures HEADER <= EntrySize(e) && 2 * EntrySize(e) <= env.Pmax()
  {
  }

  lemma NewEntryOk(env: Env, k: Key, v: Data)
    requires SepOk(k)
    ensures EntryOk(env, NewEntry(env, k, v))
  {
  }

  lemma SortedParts(es: seq<Entry>, s: nat)
    requires SortedEntries(es) && s < |es|
    ensures SortedEntries(es[..s]) && SortedEntries(es[s..])
    ensures Below(es[..s], es[s].key.rank) && From(es[s..], es[s].key.rank)
  {
  }

  lemma LeafSizesCut(es: seq<Entry>, s: nat)
    requires s <= |es|
    ensures LeafSizes(es[..s]) == LeafSizes(es)[..s] && LeafSizes(es[s..]) == LeafSizes(es)[s..]
  {
  }

  lemma LeafSizesParts(es: seq<Entry>, s: nat)
    requires s <= |es|
    ensures LeafUsed(es[..s]) == Bytes(LeafSizes(es), 0, s)
    ensures LeafUsed(es[s..]) == Bytes(LeafSizes(es), s, |es|)
  {
    LeafSizesCut(es, s);
    BytesTake(LeafSizes(es), s);
    BytesDrop(LeafSizes(es), s);
  }

  predicate EntriesOk(env: Env, es: seq<Entry>) {
    SortedEntries(es) && forall i :: 0 <= i < |es| ==> EntryOk(env, es[i])
  }

  lemma PartsOk(env: Env, es: seq<Entry>, s: nat)
    requires EntriesOk(env, es) && 0 < s < |es|
    ensures EntriesOk(env, es[..s]) && EntriesOk(env, es[s..]) && es == es[..s] + es[s..]
    ensures Below(es[..s], es[s].key.rank) && From(es[s..], es[s].key.rank) && SepOk(es[s].key)
  {
    SortedParts(es, s);
    assert EntryOk(env, es[s]);
  }

  lemma CutLeafOk(env: Env, es: seq<Entry>, x: nat)
    requires |es| >= 3 && x < |es| && EntriesOk(env, es)
    ensures InsOk(env, 0, es, CutLeaf(env, es, x))
  {
    var p := LeafPage(env, es, x);
    var s := SplitIndex(p);
    if BothFit(p, s) {
      PartsOk(env, es, s);
      LeafSizesParts(es, s);
      var l, r := es[..s], es[s..];
      assert LeafOk(env, l) && LeafOk(env, r);
    }
  }

  /** A leaf needs no split while it has fewer than three entries. */
  lemma TwoEntriesFit(env: Env, es: seq<Entry>)
    requires env.Ok() && |es| <= 2 && forall i :: 0 <= i < |es| ==> EntryOk(env, es[i])
    ensures LeafUsed(es) <= env.Pmax()
  {
    if |es| >= 1 {
      EntrySizeBounds(env, es[0]);
      LeafUsedOne(es[0]);
    }
    if |es| == 2 {
      EntrySizeBounds(env, es[1]);
      LeafUsedOne(es[1]);
      LeafUsedConcat([es[0]], [es[1]]);
      assert es == [es[0]] + [es[1]];
    } else if |es| == 1 {
      assert es == [es[0]];
    }
  }

  lemma InsertedOk(env: Env, rest: seq<Entry>, e: Entry)
    requires EntriesOk(env, rest) && EntryOk(env, e) && !Has(rest, e.key.rank)
    ensures EntriesOk(env, InsertAt(rest, Pos(rest, e.key.rank), e))
    ensures InsertAt(rest, Pos(rest, e.key.rank), e) == PutItems(rest, e)
  {
    PutSorted(rest, e);
  }

  lemma PlaceEntryOk(env: Env, rest: seq<Entry>, pos: nat, e: Entry)
    requires env.Ok() && LeafOk(env, rest) && EntryOk(env, e)
    requires pos == Pos(rest, e.key.rank) && !Has(rest, e.key.rank)
    ensures InsOk(env, 0, PutItems(rest, e), PlaceEntry(env, rest, pos, e))
  {
    var es := InsertAt(rest, pos, e);
    InsertedOk(env, rest, e);
    LeafUsedInsert(rest, pos, e);
    if LeafUsed(rest) + EntrySize(e) <= env.Pmax() {
      assert LeafOk(env, es);
    } else if |es| < 3 {
      TwoEntriesFit(env, es);
    } else {
      CutLeafOk(env, es, pos);
    }
  }

  /** The entry that a put leaves in the leaf. */
  function Stored(env: Env, es: seq<Entry>, k: Key, v: Data, reuse: bool): Entry {
    if Has(es, k.rank) && InPlace(es[Pos(es, k.rank)], v, reuse) then es[Pos(es, k.rank)].(data := v)
    else NewEntry(env, k, v)
  }

  lemma RemovedLeafOk(env: Env, es: seq<Entry>, p: nat)
    requires LeafOk(env, es) && p < |es|
    ensures LeafOk(env, RemoveAt(es, p))
  {
    RemovedAt(es, p);
    LeafUsedRemove(es, p);
  }

  lemma InPlaceFits(env: Env, es: seq<Entry>, p: nat, v: Data, reuse: bool)
    requires LeafOk(env, es) && p < |es| && InPlace(es[p], v, reuse)
    ensures LeafOk(env, es[p := es[p].(data := v)])
  {
    var es' := es[p := es[p].(data := v)];
    assert LeafSizes(es') == LeafSizes(es);
  }

  /** Replacing an entry: taking it out and putting the new one in. */
  lemma ReplaceItems(es: seq<Entry>, e: Entry)
    requires SortedEntries(es) && Has(es, e.key.rank)
    ensures var rest := RemoveAt(es, Pos(es, e.key.rank));
      Pos(rest, e.key.rank) == Pos(es, e.key.rank) && !Has(rest, e.key.rank) && PutItems(es, e) == PutItems(rest, e)
  {
    var p := Pos(es, e.key.rank);
    RemovedAt(es, p);
    PosUnique(RemoveAt(es, p), e.key.rank, p);
  }

  lemma SortedLeaf(env: Env, es: seq<Entry>)
    requires LeafOk(env, es)
    ensures SortedEntries(es)
  {
  }

  lemma ReplaceLeafOk(env: Env, es: seq<Entry>, e: Entry)
    requires env.Ok() && LeafOk(env, es) && EntryOk(env, e) && Has(es, e.key.rank)
    ensures var p := Pos(es, e.key.rank); InsOk(env, 0, PutItems(es, e), PlaceEntry(env, RemoveAt(es, p), p, e))
  {
    hide InsOk, PlaceEntry, LeafOk, PutItems, EntryOk;
    var p := Pos(es, e.key.rank);
    var rest := RemoveAt(es, p);
    SortedLeaf(env, es);
    RemovedLeafOk(env, es, p);
    ReplaceItems(es, e);
    RemovedAt(es, p);
    PlaceEntryOk(env, rest, p, e);
  }

  lemma PutLeafOk(env: Env, es: seq<Entry>, k: Key, v: Data, reuse: bool)
    requires env.Ok() && LeafOk(env, es) && SepOk(k)
    ensures InsOk(env, 0, PutItems(es, Stored(env, es, k, v, reuse)), PutIn(env, Leaf(es), 0, k, v, reuse))
  {
    var p := Pos(es, k.rank);
    NewEntryOk(env, k, v);
    if !Has(es, k.rank) {
      PlaceEntryOk(env, es, p, NewEntry(env, k, v));
    } else if InPlace(es[p], v, reuse) {
      InPlaceFits(env, es, p, v, reuse);
    } else {
      ReplaceLeafOk(env, es, NewEntry(env, k, v));
    }
  }

  // ----- Branch pages -----

  ghost predicate AllOk(env: Env, d: nat, kids: seq<Tree>) {
    forall i :: 0 <= i < |kids| ==> Wf(env, kids[i], d) && Min(kids[i])
  }

  /** Children and separators of a branch page, sizes aside. */
  ghost predicate KidsOk(env: Env, d: nat, kids: seq<Tree>, seps: seq<Key>) {
    Apart(Parts(kids), seps) && AllOk(env, d, kids)
  }

  lemma SepSizeBounds(env: Env, sep: Key)
    requires env.Ok() && SepOk(sep)
    ensures HEADER <= SepSize(sep) <= 522 && 2 * 522 <= env.Pmax()
  {
  }

  lemma ApartCut(parts: seq<seq<Entry>>, seps: seq<Key>, s: nat)
    requires Apart(parts, seps) && 0 < s < |parts|
    ensures Apart(parts[..s], seps[..s - 1]) && Apart(parts[s..], seps[s..])
  {
    var pr, sr := parts[s..], seps[s..];
    forall i | 0 <= i < |sr| ensures Below(pr[i], sr[i].rank) { assert Below(parts[s + i], seps[s + i].rank); }
    forall i | 0 < i < |pr| ensures From(pr[i], sr[i - 1].rank) { assert From(parts[s + i], seps[s + i - 1].rank); }
  }

  lemma PartsCut(kids: seq<Tree>, s: nat)
    requires s <= |kids|
    ensures Parts(kids[..s]) == Parts(kids)[..s] && Parts(kids[s..]) == Parts(kids)[s..]
  {
  }

  lemma BranchSizesCut(seps: seq<Key>, s: nat)
    requires 0 < s <= |seps|
    ensures BranchSizes(seps[..s - 1]) == BranchSizes(seps)[..s]
    ensures BranchSizes(seps[s..]) == [HEADER] + BranchSizes(seps)[s + 1..]
  {
  }

  lemma BytesAfterHeader(b: seq<nat>)
    ensures Bytes([HEADER] + b, 0, |b| + 1) == HEADER + Bytes(b, 0, |b|)
  {
    BytesConcat([HEADER], b);
    assert Bytes([HEADER], 0, 1) == HEADER;
  }

  lemma BranchSizesParts(seps: seq<Key>, s: nat)
    requires 0 < s <= |seps|
    ensures BranchUsed(seps[..s - 1]) == Bytes(BranchSizes(seps), 0, s)
    ensures BranchUsed(seps[s..]) == HEADER + Bytes(BranchSizes(seps), s + 1, |seps| + 1)
  {
    hide Bytes, BranchSizes;
    BranchSizesCut(seps, s);
    BytesTake(BranchSizes(seps), s);
    BytesDrop(BranchSizes(seps), s + 1);
    BytesAfterHeader(BranchSizes(seps)[s + 1..]);
  }

  /** A branch page too large for its nodes has many; both halves get at least two. */
  lemma HalvesHaveTwo(p: Page, s: nat)
    requires NeedsSplit(p) && !p.leaf && p.pmax >= 4080 && (forall i :: 0 <= i < |p.sizes| ==> p.sizes[i] <= 522)
    requires |p.sizes| >= 3 && s == SplitIndex(p) && BothFit(p, s)
    ensures 2 <= s <= |p.sizes| - 2
  {
    hide Upward, Downward, Bytes;
    NoBytes(p.sizes, 0);
    NoBytes(p.sizes, |p.sizes|);
    ManyNodes(p, 0, |p.sizes|);
    if Scanned(p) {
      if FromLeft(p) {
        UpwardStops(p, 0, LeftEnd(p), 0);
        if Bytes(p.sizes, 0, s + 1) > p.pmax { ManyNodes(p, 0, s + 1); }
      } else {
        DownwardStops(p, p.NKeys(), p.Half() - 1, 0);
        if Bytes(p.sizes, s - 1, |p.sizes|) > p.pmax { ManyNodes(p, s - 1, |p.sizes|); }
      }
    }
  }

  lemma {:induction false} BytesAtMost(s: seq<nat>, i: nat, j: nat, c: nat)
    requires i <= j <= |s| && forall x :: i <= x < j ==> s[x] <= c
    ensures Bytes(s, i, j) <= (j - i) * c
    decreases j
  {
    if i < j {
      BytesAtMost(s, i, j - 1, c);
      assert (j - i) * c == (j - 1 - i) * c + c;
    }
  }

  lemma ManyNodes(p: Page, i: nat, j: nat)
    requires (forall x :: 0 <= x < |p.sizes| ==> p.sizes[x] <= 522) && p.pmax >= 4080
    requires i <= j <= |p.sizes| && Bytes(p.sizes, i, j) > p.pmax
    ensures j - i >= 8
  {
    BytesAtMost(p.sizes, i, j, 522);
  }

  lemma KidsOkParts(env: Env, d: nat, kids: seq<Tree>, seps: seq<Key>, s: nat)
    requires KidsOk(env, d, kids, seps) && 0 < s < |kids|
    ensures KidsOk(env, d, kids[..s], seps[..s - 1]) && KidsOk(env, d, kids[s..], seps[s..])
    ensures SepOk(seps[s - 1])
  {
    PartsCut(kids, s);
    ApartCut(Parts(kids), seps, s);
  }

  lemma CutJoins<T>(s: seq<T>, i: nat)
    requires i <= |s|
    ensures s[..i] + s[i..] == s
  {
  }

  lemma FlatCut(kids: seq<Tree>, s: nat)
    requires s <= |kids|
    ensures Flat(kids[..s]) + Flat(kids[s..]) == Flat(kids)
  {
    CutJoins(kids, s);
    FlatConcat(kids[..s], kids[s..]);
  }

  lemma BranchWf(env: Env, d: nat, kids: seq<Tree>, seps: seq<Key>)
    requires KidsOk(env, d, kids, seps) && BranchUsed(seps) <= env.Pmax()
    ensures Wf(env, Branch(kids, seps), d + 1)
  {
  }

  lemma SmallSeps(env: Env, seps: seq<Key>)
    requires env.Ok() && forall i :: 0 <= i < |seps| ==> SepOk(seps[i])
    ensures forall i :: 0 <= i <= |seps| ==> HEADER <= BranchSizes(seps)[i] <= 522 && 2 * BranchSizes(seps)[i] <= env.Pmax()
  {
    forall i | 0 <= i <= |seps| ensures HEADER <= BranchSizes(seps)[i] <= 522 && 2 * BranchSizes(seps)[i] <= env.Pmax() {
      if i > 0 { SepSizeBounds(env, seps[i - 1]); }
    }
  }

  lemma HalfOk(env: Env, d: nat, kids: seq<Tree>, seps: seq<Key>)
    requires KidsOk(env, d, kids, seps) && BranchUsed(seps) <= env.Pmax() && |kids| >= 2
    ensures Wf(env, Branch(kids, seps), d + 1) && Min(Branch(kids, seps)) && Items(Branch(kids, seps)) == Flat(kids)
  {
  }

  lemma SepsOfKids(env: Env, d: nat, kids: seq<Tree>, seps: seq<Key>)
    requires KidsOk(env, d, kids, seps)
    ensures |kids| == |seps| + 1 && Apart(Parts(kids), seps) && forall i :: 0 <= i < |seps| ==> SepOk(seps[i])
  {
  }

  lemma CutBranchAt(env: Env, d: nat, kids: seq<Tree>, seps: seq<Key>, s: nat)
    requires KidsOk(env, d, kids, seps) && 2 <= s <= |kids| - 2
    requires BranchUsed(seps[..s - 1]) <= env.Pmax() && BranchUsed(seps[s..]) <= env.Pmax()
    ensures InsOk(env, d + 1, Flat(kids), Two(Branch(kids[..s], seps[..s - 1]), seps[s - 1], Branch(kids[s..], seps[s..])))
  {
    hide Wf, Min, Items, Flat, AllOk, Apart, Below, From, SepOk, BranchUsed, InsOk, KidsOk;
    SepsOfKids(env, d, kids, seps);
    KidsOkParts(env, d, kids, seps, s);
    var kl, sl, kr, sr := kids[..s], seps[..s - 1], kids[s..], seps[s..];
    HalfOk(env, d, kl, sl);
    HalfOk(env, d, kr, sr);
    FlatCut(kids, s);
    SeparatorCuts(kids, seps, s - 1);
    TwoOk(env, d + 1, Flat(kids), Branch(kl, sl), seps[s - 1], Branch(kr, sr));
  }

  lemma TwoOk(env: Env, d: nat, es: seq<Entry>, l: Tree, sep: Key, r: Tree)
    requires Wf(env, l, d) && Min(l) && Wf(env, r, d) && Min(r) && SepOk(sep)
    requires Below(Items(l), sep.rank) && From(Items(r), sep.rank) && Items(l) + Items(r) == es
    ensures InsOk(env, d, es, Two(l, sep, r))
  {
  }

  lemma FullOk(env: Env, d: nat, es: seq<Entry>)
    ensures InsOk(env, d, es, Full)
  {
  }

  lemma CutBranchOk(env: Env, d: nat, kids: seq<Tree>, seps: seq<Key>, x: nat)
    requires env.Ok() && KidsOk(env, d, kids, seps) && |kids| >= 3 && 0 < x < |kids|
    requires NeedsSplit(BranchPage(env, seps, x))
    ensures InsOk(env, d + 1, Flat(kids), CutBranch(env, kids, seps, x))
  {
    hide InsOk, KidsOk, Flat, SplitIndex, NeedsSplit, BranchUsed, BothFit;
    SepsOfKids(env, d, kids, seps);
    FullOk(env, d + 1, Flat(kids));
    var s := SplitIndex(BranchPage(env, seps, x));
    if BothFit(BranchPage(env, seps, x), s) {
      CutPartsFit(env, seps, x, s);
      CutBranchAt(env, d, kids, seps, s);
    }
  }

  lemma CutPartsFit(env: Env, seps: seq<Key>, x: nat, s: nat)
    requires env.Ok() && |seps| >= 2 && 0 < x <= |seps| && forall i :: 0 <= i < |seps| ==> SepOk(seps[i])
    requires NeedsSplit(BranchPage(env, seps, x)) && s == SplitIndex(BranchPage(env, seps, x)) && BothFit(BranchPage(env, seps, x), s)
    ensures 2 <= s <= |seps| - 1 && BranchUsed(seps[..s - 1]) <= env.Pmax() && BranchUsed(seps[s..]) <= env.Pmax()
  {
    hide Bytes, SplitIndex, NeedsSplit, BranchUsed, SepSize, BranchSizes;
    SmallSeps(env, seps);
    HalvesHaveTwo(BranchPage(env, seps, x), s);
    BranchSizesParts(seps, s);
  }

  // ----- Changing one child -----

  /** The entries `es` may stand in the place of child i. */
  predicate FitsSlot(seps: seq<Key>, i: nat, es: seq<Entry>)
    requires i <= |seps|
  { (i > 0 ==> From(es, seps[i - 1].rank)) && (i < |seps| ==> Below(es, seps[i].rank)) }

  function Around(kids: seq<Tree>, i: nat, es: seq<Entry>): seq<Entry>
    requires i < |kids|
  { Flat(kids[..i]) + es + Flat(kids[i + 1..]) }

  lemma {:induction false} NonEmpty(env: Env, t: Tree, d: nat)
    requires Wf(env, t, d) && Min(t)
    ensures Items(t) != []
    decreases d
  {
    if t.Branch? {
      NonEmpty(env, t.kids[0], d - 1);
      assert Items(t) == Items(t.kids[0]) + Flat(t.kids[1..]);
    }
  }

  lemma UpdateJoins<T>(s: seq<T>, i: nat, x: T)
    requires i < |s|
    ensures s[i := x] == s[..i] + [x] + s[i + 1..] && s == s[..i] + [s[i]] + s[i + 1..]
  {
  }

  lemma FlatUpdate(kids: seq<Tree>, i: nat, c: Tree)
    requires i < |kids|
    ensures Flat(kids[i := c]) == Around(kids, i, Items(c)) && Flat(kids) == Around(kids, i, Items(kids[i]))
  {
    UpdateJoins(kids, i, c);
    FlatThree(kids[..i], c, kids[i + 1..]);
    FlatThree(kids[..i], kids[i], kids[i + 1..]);
  }

  lemma FlatAround(kids: seq<Tree>, i: nat)
    requires i < |kids|
    ensures Flat(kids) == Around(kids, i, Items(kids[i]))
  {
    UpdateJoins(kids, i, kids[i]);
    FlatThree(kids[..i], kids[i], kids[i + 1..]);
  }

  lemma ApartReplace(parts: seq<seq<Entry>>, seps: seq<Key>, i: nat, es: seq<Entry>)
    requires Apart(parts, seps) && i < |parts| && FitsSlot(seps, i, es)
    ensures Apart(parts[i := es], seps)
  {
  }

  lemma PartsReplace(kids: seq<Tree>, i: nat, c: Tree)
    requires i < |kids|
    ensures Parts(kids[i := c]) == Parts(kids)[i := Items(c)]
  {
  }

  lemma ReplaceKidOk(env: Env, d: nat, kids: seq<Tree>, seps: seq<Key>, i: nat, c: Tree)
    requires KidsOk(env, d, kids, seps) && i < |kids| && Wf(env, c, d) && Min(c) && FitsSlot(seps, i, Items(c))
    ensures KidsOk(env, d, kids[i := c], seps)
  {
    PartsReplace(kids, i, c);
    ApartReplace(Parts(kids), seps, i, Items(c));
  }

  lemma SplitIndexed<T>(s: seq<T>, i: nat, l: T, r: T)
    requires i < |s|
    ensures |Split(s, i, l, r)| == |s| + 1
    ensures forall j :: 0 <= j <= |s| ==>
      Split(s, i, l, r)[j] == if j < i then s[j] else if j == i then l else if j == i + 1 then r else s[j - 1]
  {
  }

  lemma InsertIndex(seps: seq<Key>, i: nat, sep: Key)
    requires i <= |seps|
    ensures |InsertAt(seps, i, sep)| == |seps| + 1
    ensures forall j :: 0 <= j <= |seps| ==> InsertAt(seps, i, sep)[j] == if j < i then seps[j] else if j == i then sep else seps[j - 1]
  {
  }

  /** The new separator lies strictly between its neighbours. */
  lemma SepBetween(env: Env, d: nat, seps: seq<Key>, i: nat, l: Tree, sep: Key, r: Tree)
    requires i <= |seps| && Wf(env, l, d) && Min(l) && Wf(env, r, d) && Min(r)
    requires Below(Items(l), sep.rank) && From(Items(r), sep.rank) && FitsSlot(seps, i, Items(l) + Items(r))
    ensures i > 0 ==> seps[i - 1].rank < sep.rank
    ensures i < |seps| ==> sep.rank < seps[i].rank
  {
    NonEmpty(env, l, d);
    NonEmpty(env, r, d);
    assert Items(l)[0] in Items(l) + Items(r) && Items(l)[0] in Items(l);
    assert Items(r)[0] in Items(l) + Items(r) && Items(r)[0] in Items(r);
  }

  lemma SortedInsert(seps: seq<Key>, i: nat, sep: Key)
    requires SortedSeps(seps) && i <= |seps|
    requires (i > 0 ==> seps[i - 1].rank < sep.rank) && (i < |seps| ==> sep.rank < seps[i].rank)
    ensures SortedSeps(InsertAt(seps, i, sep))
  {
    InsertIndex(seps, i, sep);
  }

  lemma BelowSplit(parts: seq<seq<Entry>>, seps: seq<Key>, i: nat, l: seq<Entry>, sep: Key, r: seq<Entry>, j: nat)
    requires Apart(parts, seps) && i < |parts| && Below(l, sep.rank) && FitsSlot(seps, i, r) && j <= |seps|
    ensures Below(Split(parts, i, l, r)[j], InsertAt(seps, i, sep)[j].rank)
  {
    SplitIndexed(parts, i, l, r);
    InsertIndex(seps, i, sep);
    if j > i + 1 { assert Below(parts[j - 1], seps[j - 1].rank); }
  }

  lemma FromSplit(parts: seq<seq<Entry>>, seps: seq<Key>, i: nat, l: seq<Entry>, sep: Key, r: seq<Entry>, j: nat)
    requires Apart(parts, seps) && i < |parts| && From(r, sep.rank) && FitsSlot(seps, i, l) && 0 < j <= |parts|
    ensures From(Split(parts, i, l, r)[j], InsertAt(seps, i, sep)[j - 1].rank)
  {
    SplitIndexed(parts, i, l, r);
    InsertIndex(seps, i, sep);
    if j > i + 1 { assert From(parts[j - 1], seps[j - 2].rank); }
  }

  lemma ApartSplit(parts: seq<seq<Entry>>, seps: seq<Key>, i: nat, l: seq<Entry>, sep: Key, r: seq<Entry>)
    requires Apart(parts, seps) && i < |parts| && SepOk(sep) && Below(l, sep.rank) && From(r, sep.rank)
    requires FitsSlot(seps, i, l) && FitsSlot(seps, i, r)
    requires (i > 0 ==> seps[i - 1].rank < sep.rank) && (i < |seps| ==> sep.rank < seps[i].rank)
    ensures Apart(Split(parts, i, l, r), InsertAt(seps, i, sep))
  {
    var parts', seps' := Split(parts, i, l, r), InsertAt(seps, i, sep);
    SortedInsert(seps, i, sep);
    forall j | 0 <= j < |seps'| ensures Below(parts'[j], seps'[j].rank) { BelowSplit(parts, seps, i, l, sep, r, j); }
    forall j | 0 < j < |parts'| ensures From(parts'[j], seps'[j - 1].rank) { FromSplit(parts, seps, i, l, sep, r, j); }
  }

  lemma PartsSplit(kids: seq<Tree>, i: nat, l: Tree, r: Tree)
    requires i < |kids|
    ensures Parts(Split(kids, i, l, r)) == Split(Parts(kids), i, Items(l), Items(r))
  {
    SplitIndexed(kids, i, l, r);
    SplitIndexed(Parts(kids), i, Items(l), Items(r));
  }

  lemma AllOkSplit(env: Env, d: nat, kids: seq<Tree>, i: nat, l: Tree, r: Tree)
    requires AllOk(env, d, kids) && i < |kids| && Wf(env, l, d) && Min(l) && Wf(env, r, d) && Min(r)
    ensures AllOk(env, d, Split(kids, i, l, r))
  {
    SplitIndexed(kids, i, l, r);
  }

  lemma SplitKidOk(env: Env, d: nat, kids: seq<Tree>, seps: seq<Key>, i: nat, l: Tree, sep: Key, r: Tree)
    requires KidsOk(env, d, kids, seps) && i < |kids|
    requires Wf(env, l, d) && Min(l) && Wf(env, r, d) && Min(r) && SepOk(sep)
    requires Below(Items(l), sep.rank) && From(Items(r), sep.rank) && FitsSlot(seps, i, Items(l) + Items(r))
    ensures KidsOk(env, d, Split(kids, i, l, r), InsertAt(seps, i, sep))
  {
    SepBetween(env, d, seps, i, l, sep, r);
    FitsParts(seps, i, Items(l), Items(r));
    PartsSplit(kids, i, l, r);
    ApartSplit(Parts(kids), seps, i, Items(l), sep, Items(r));
    AllOkSplit(env, d, kids, i, l, r);
  }

  lemma FitsParts(seps: seq<Key>, i: nat, a: seq<Entry>, b: seq<Entry>)
    requires i <= |seps|
    ensures FitsSlot(seps, i, a + b) <==> FitsSlot(seps, i, a) && FitsSlot(seps, i, b)
  {
    assert forall e :: e in a + b <==> e in a || e in b;
  }

  lemma {:induction false} EvenBytes(s: seq<nat>, i: nat, j: nat)
    requires i <= j <= |s| && forall x :: i <= x < j ==> s[x] % 2 == 0
    ensures Bytes(s, i, j) % 2 == 0
    decreases j
  {
    if i < j { EvenBytes(s, i, j - 1); }
  }

  /** mdb_branch_size is not rounded up, but the room in a page is even. */
  lemma RoundedRoom(env: Env, seps: seq<Key>, sep: Key)
    requires env.Ok() && BranchUsed(seps) + 8 + sep.size + 2 <= env.Pmax()
    ensures BranchUsed(seps) + SepSize(sep) <= env.Pmax()
  {
    EvenBytes(BranchSizes(seps), 0, |seps| + 1);
  }

  lemma NewSepNeedsSplit(env: Env, seps: seq<Key>, i: nat, sep: Key)
    requires env.Ok() && i <= |seps| && SepOk(sep) && (forall j :: 0 <= j < |seps| ==> SepOk(seps[j]))
    requires BranchUsed(seps) <= env.Pmax() < BranchUsed(seps) + 8 + sep.size + 2
    ensures NeedsSplit(BranchPage(env, InsertAt(seps, i, sep), i + 1))
  {
    InsertIndex(seps, i, sep);
    SmallSeps(env, InsertAt(seps, i, sep));
    BranchUsedInsert(seps, i, sep);
  }

  lemma RoomForFirst(env: Env, seps: seq<Key>, sep: Key)
    requires env.Ok() && SepOk(sep) && seps == []
    ensures BranchUsed(seps) + 8 + sep.size + 2 <= env.Pmax()
  {
    assert Bytes(BranchSizes(seps), 0, 0) == 0;
  }

  lemma GrownOk(env: Env, d: nat, kids: seq<Tree>, i: nat, l: Tree, r: Tree, kids': seq<Tree>, seps': seq<Key>)
    requires i < |kids| && kids' == Split(kids, i, l, r) && KidsOk(env, d, kids', seps')
    requires env.Ok() && (BranchUsed(seps') <= env.Pmax() || (|kids'| >= 3 && i + 1 < |kids'| && NeedsSplit(BranchPage(env, seps', i + 1))))
    ensures InsOk(env, d + 1, Around(kids, i, Items(l) + Items(r)),
                  if BranchUsed(seps') <= env.Pmax() then One(Branch(kids', seps')) else CutBranch(env, kids', seps', i + 1))
  {
    FlatFour(kids[..i], l, r, kids[i + 1..]);
    if BranchUsed(seps') <= env.Pmax() {
      HalfOk(env, d, kids', seps');
    } else {
      CutBranchOk(env, d, kids', seps', i + 1);
    }
  }

  lemma PlaceSepOk(env: Env, d: nat, kids: seq<Tree>, seps: seq<Key>, i: nat, l: Tree, sep: Key, r: Tree)
    requires env.Ok() && KidsOk(env, d, kids, seps) && BranchUsed(seps) <= env.Pmax() && i < |kids|
    requires Wf(env, l, d) && Min(l) && Wf(env, r, d) && Min(r) && SepOk(sep)
    requires Below(Items(l), sep.rank) && From(Items(r), sep.rank) && FitsSlot(seps, i, Items(l) + Items(r))
    ensures InsOk(env, d + 1, Around(kids, i, Items(l) + Items(r)), PlaceSep(env, kids, seps, i, l, sep, r))
  {
    hide InsOk, Wf, Min, Items, Around, Flat, CutBranch, FitsSlot, Below, From, Apart, AllOk, SepOk, NeedsSplit;
    SepsOfKids(env, d, kids, seps);
    SplitKidOk(env, d, kids, seps, i, l, sep, r);
    if |kids| == 1 { RoomForFirst(env, seps, sep); }
    BranchUsedInsert(seps, i, sep);
    if BranchUsed(seps) + 8 + sep.size + 2 <= env.Pmax() {
      RoundedRoom(env, seps, sep);
    } else {
      NewSepNeedsSplit(env, seps, i, sep);
    }
    GrownOk(env, d, kids, i, l, r, Split(kids, i, l, r), InsertAt(seps, i, sep));
  }

  // ----- When a put can fail -----

  /** A leaf has room for an entry, or can be split. */
  predicate RoomForEntry(env: Env, rest: seq<Entry>, pos: nat, e: Entry)
    requires pos <= |rest|
  { LeafUsed(rest) + EntrySize(e) <= env.Pmax() || Splittable(LeafPage(env, InsertAt(rest, pos, e), pos)) }

  /** A branch has room for the separator after child i, or can be split. */
  predicate RoomForSep(env: Env, seps: seq<Key>, i: nat, sep: Key)
    requires i <= |seps|
  { BranchUsed(seps) + 8 + sep.size + 2 <= env.Pmax() || Splittable(BranchPage(env, InsertAt(seps, i, sep), i + 1)) }

  predicate RoomInLeaf(env: Env, es: seq<Entry>, k: Key, v: Data, reuse: bool) {
    var p := Pos(es, k.rank);
    if !Has(es, k.rank) then RoomForEntry(env, es, p, NewEntry(env, k, v))
    else InPlace(es[p], v, reuse) || RoomForEntry(env, RemoveAt(es, p), p, NewEntry(env, k, v))
  }

  /** Every page on the way that must take a node has room for it, or can be split: the leaf for the entry,
    * and a branch if the child on the way was split. */
  predicate RoomOnWay(env: Env, t: Tree, d: nat, k: Key, v: Data, reuse: bool)
    requires Shaped(t, d)
    decreases d
  {
    match t
    case Leaf(es) => RoomInLeaf(env, es, k, v, reuse)
    case Branch(kids, seps) =>
      var i := ChildIndex(seps, k.rank);
      var below := PutIn(env, kids[i], d - 1, k, v, reuse);
      RoomOnWay(env, kids[i], d - 1, k, v, reuse) && (below.Two? ==> RoomForSep(env, seps, i, below.sep))
  }

  lemma PlaceEntryRoom(env: Env, rest: seq<Entry>, pos: nat, e: Entry)
    requires env.Ok() && LeafOk(env, rest) && EntryOk(env, e) && pos <= |rest|
    ensures PlaceEntry(env, rest, pos, e).Full? <==> !RoomForEntry(env, rest, pos, e)
  {
    hide Splittable, BothFit, SplitIndex, Bytes, EntrySize, EntryOk;
    var es := InsertAt(rest, pos, e);
    LeafUsedInsert(rest, pos, e);
    if LeafUsed(rest) + EntrySize(e) > env.Pmax() {
      EntryNeedsSplit(env, rest, pos, e);
      SplitSucceeds(LeafPage(env, es, pos));
    }
  }

  lemma EntryNeedsSplit(env: Env, rest: seq<Entry>, pos: nat, e: Entry)
    requires env.Ok() && LeafOk(env, rest) && EntryOk(env, e) && pos <= |rest|
    requires LeafUsed(rest) + EntrySize(e) > env.Pmax()
    ensures NeedsSplit(LeafPage(env, InsertAt(rest, pos, e), pos))
  {
    hide Bytes, EntrySize, EntryOk;
    var p := LeafPage(env, InsertAt(rest, pos, e), pos);
    LeafUsedInsert(rest, pos, e);
    forall i | 0 <= i < |p.sizes| ensures HEADER <= p.sizes[i] && 2 * p.sizes[i] <= p.pmax {
      EntrySizeBounds(env, if i < pos then rest[i] else if i == pos then e else rest[i - 1]);
    }
  }

  lemma PlaceSepRoom(env: Env, kids: seq<Tree>, seps: seq<Key>, i: nat, l: Tree, sep: Key, r: Tree)
    requires env.Ok() && |kids| == |seps| + 1 && i < |kids| && BranchUsed(seps) <= env.Pmax()
    requires SepOk(sep) && forall j :: 0 <= j < |seps| ==> SepOk(seps[j])
    ensures PlaceSep(env, kids, seps, i, l, sep, r).Full? <==> !RoomForSep(env, seps, i, sep)
  {
    if |kids| == 1 { RoomForFirst(env, seps, sep); }
    if BranchUsed(seps) + 8 + sep.size + 2 > env.Pmax() {
      NewSepNeedsSplit(env, seps, i, sep);
      SplitSucceeds(BranchPage(env, InsertAt(seps, i, sep), i + 1));
    }
  }

  lemma PutLeafRoom(env: Env, es: seq<Entry>, k: Key, v: Data, reuse: bool)
    requires env.Ok() && LeafOk(env, es) && SepOk(k)
    ensures PutIn(env, Leaf(es), 0, k, v, reuse).Full? <==> !RoomInLeaf(env, es, k, v, reuse)
  {
    hide PlaceEntry, RoomForEntry, LeafOk, Pos, InPlace;
    var p := Pos(es, k.rank);
    NewEntryOk(env, k, v);
    if !Has(es, k.rank) {
      PlaceEntryRoom(env, es, p, NewEntry(env, k, v));
    } else if !InPlace(es[p], v, reuse) {
      RemovedLeafOk(env, es, p);
      PlaceEntryRoom(env, RemoveAt(es, p), p, NewEntry(env, k, v));
    }
  }

  lemma LiftRoom(env: Env, d: nat, kids: seq<Tree>, seps: seq<Key>, i: nat, es: seq<Entry>, below: Ins)
    requires env.Ok() && KidsOk(env, d, kids, seps) && BranchUsed(seps) <= env.Pmax() && i < |kids|
    requires InsOk(env, d, es, below)
    ensures Lift(env, kids, seps, i, below).Full? <==> below.Full? || (below.Two? && !RoomForSep(env, seps, i, below.sep))
  {
    hide RoomForSep, PlaceSep;
    if below.Two? { PlaceSepRoom(env, kids, seps, i, below.l, below.sep, below.r); }
  }

  /** Every page on the way to key r has fewer than 32 nodes. */
  predicate FewNodes(t: Tree, d: nat, r: real)
    requires Shaped(t, d)
    decreases d
  { NumKeys(t) < 32 && (t.Branch? ==> FewNodes(t.kids[ChildIndex(t.seps, r)], d - 1, r)) }

  /** Pages with fewer than 32 nodes can always be split. */
  lemma {:induction false} FewHaveRoom(env: Env, t: Tree, d: nat, k: Key, v: Data, reuse: bool)
    requires Shaped(t, d) && FewNodes(t, d, k.rank)
    ensures RoomOnWay(env, t, d, k, v, reuse)
    decreases d
  {
    if t.Branch? { FewHaveRoom(env, t.kids[ChildIndex(t.seps, k.rank)], d - 1, k, v, reuse); }
  }

  // ----- The recursion -----

  lemma StoredBetween(env: Env, a: seq<Entry>, x: seq<Entry>, b: seq<Entry>, k: Key, v: Data, reuse: bool)
    requires Below(a, k.rank) && AllAbove(b, k.rank)
    ensures Stored(env, a + x + b, k, v, reuse) == Stored(env, x, k, v, reuse)
  {
    PosBetween(a, x, b, k.rank);
  }

  lemma StoredRank(env: Env, es: seq<Entry>, k: Key, v: Data, reuse: bool)
    ensures Stored(env, es, k, v, reuse).key.rank == k.rank && Stored(env, es, k, v, reuse).data == v
  {
  }

  /** The child that ChildIndex picks is the one whose slot takes rank r. */
  lemma SlotOfRank(kids: seq<Tree>, seps: seq<Key>, r: real)
    requires Apart(Parts(kids), seps)
    ensures ChildIndex(seps, r) < |kids|
    ensures ChildIndex(seps, r) > 0 ==> seps[ChildIndex(seps, r) - 1].rank <= r
    ensures ChildIndex(seps, r) < |seps| ==> r < seps[ChildIndex(seps, r)].rank
    ensures FitsSlot(seps, ChildIndex(seps, r), Items(kids[ChildIndex(seps, r)]))
    ensures Below(Flat(kids[..ChildIndex(seps, r)]), r) && AllAbove(Flat(kids[ChildIndex(seps, r) + 1..]), r)
  {
    var i := ChildIndex(seps, r);
    assert Parts(kids)[i] == Items(kids[i]);
    if i > 0 { SeparatorCuts(kids, seps, i - 1); } else { assert Flat(kids[..0]) == []; }
    if i < |seps| { SeparatorCuts(kids, seps, i); } else { assert Flat(kids[i + 1..]) == []; }
  }

  lemma PutFitsSlot(seps: seq<Key>, i: nat, es: seq<Entry>, e: Entry)
    requires i <= |seps| && FitsSlot(seps, i, es)
    requires (i > 0 ==> seps[i - 1].rank <= e.key.rank) && (i < |seps| ==> e.key.rank < seps[i].rank)
    ensures FitsSlot(seps, i, PutItems(es, e))
  {
    PutMembers(es, e);
  }

  lemma {:induction false} WfShaped(env: Env, t: Tree, d: nat)
    requires Wf(env, t, d)
    ensures Shaped(t, d)
    decreases d
  {
    if t.Branch? {
      forall i | 0 <= i < |t.kids| ensures Shaped(t.kids[i], d - 1) { WfShaped(env, t.kids[i], d - 1); }
    }
  }

  /** If child i is well, the parent is. */
  lemma LiftOk(env: Env, d: nat, kids: seq<Tree>, seps: seq<Key>, i: nat, es: seq<Entry>, below: Ins)
    requires env.Ok() && KidsOk(env, d, kids, seps) && BranchUsed(seps) <= env.Pmax() && i < |kids| && |kids| >= 2
    requires InsOk(env, d, es, below) && FitsSlot(seps, i, es)
    ensures InsOk(env, d + 1, Around(kids, i, es), Lift(env, kids, seps, i, below))
  {
    match below
    case One(c) =>
      ReplaceKidOk(env, d, kids, seps, i, c);
      FlatUpdate(kids, i, c);
      BranchWf(env, d, kids[i := c], seps);
    case Two(l, sep, r) =>
      PlaceSepOk(env, d, kids, seps, i, l, sep, r);
    case Full =>
  }

  /** Child i of a branch, where ChildIndex looks for r, and what is left and right of it. */
  lemma Surroundings(kids: seq<Tree>, seps: seq<Key>, r: real, i: nat, a: seq<Entry>, x: seq<Entry>, b: seq<Entry>)
    requires Apart(Parts(kids), seps) && i == ChildIndex(seps, r) && i < |kids|
    requires a == Flat(kids[..i]) && x == Items(kids[i]) && b == Flat(kids[i + 1..])
    ensures Flat(kids) == a + x + b && Below(a, r) && AllAbove(b, r) && FitsSlot(seps, i, x)
  {
    hide Apart, Flat, Below, AllAbove, FitsSlot, Items;
    SlotOfRank(kids, seps, r);
    FlatAround(kids, i);
  }

  lemma StoredAround(env: Env, kids: seq<Tree>, seps: seq<Key>, k: Key, v: Data, reuse: bool, i: nat, x: seq<Entry>)
    requires Apart(Parts(kids), seps) && i == ChildIndex(seps, k.rank) && i < |kids| && x == Items(kids[i])
    ensures Stored(env, Flat(kids), k, v, reuse) == Stored(env, x, k, v, reuse)
  {
    hide Apart, Flat, Stored, Below, AllAbove, FitsSlot, Items;
    var a, b := Flat(kids[..i]), Flat(kids[i + 1..]);
    Surroundings(kids, seps, k.rank, i, a, x, b);
    StoredBetween(env, a, x, b, k, v, reuse);
  }

  /** Putting an entry into the child that ChildIndex picks puts it into the whole. */
  lemma PutAround(kids: seq<Tree>, seps: seq<Key>, i: nat, x: seq<Entry>, e: Entry)
    requires Apart(Parts(kids), seps) && i == ChildIndex(seps, e.key.rank) && i < |kids| && x == Items(kids[i])
    ensures PutItems(Flat(kids), e) == Around(kids, i, PutItems(x, e))
  {
    hide Apart, Flat, PutItems, Below, AllAbove, FitsSlot, Items;
    var a, b := Flat(kids[..i]), Flat(kids[i + 1..]);
    Surroundings(kids, seps, e.key.rank, i, a, x, b);
    PutBetween(a, x, b, e);
  }

  lemma PutSlot(kids: seq<Tree>, seps: seq<Key>, i: nat, x: seq<Entry>, e: Entry)
    requires Apart(Parts(kids), seps) && i == ChildIndex(seps, e.key.rank) && i < |kids| && x == Items(kids[i])
    ensures FitsSlot(seps, i, PutItems(x, e))
  {
    hide Apart, Flat;
    SlotOfRank(kids, seps, e.key.rank);
    PutFitsSlot(seps, i, x, e);
  }

  lemma PutBranchOk(env: Env, d: nat, kids: seq<Tree>, seps: seq<Key>, k: Key, v: Data, reuse: bool,
                    i: nat, x: seq<Entry>, e: Entry, below: Ins)
    requires env.Ok() && KidsOk(env, d, kids, seps) && BranchUsed(seps) <= env.Pmax() && |kids| >= 2
    requires i == ChildIndex(seps, k.rank) && i < |kids| && x == Items(kids[i]) && e == Stored(env, x, k, v, reuse)
    requires InsOk(env, d, PutItems(x, e), below)
    ensures InsOk(env, d + 1, PutItems(Flat(kids), Stored(env, Flat(kids), k, v, reuse)), Lift(env, kids, seps, i, below))
    ensures Lift(env, kids, seps, i, below).Full? <==> below.Full? || (below.Two? && !RoomForSep(env, seps, i, below.sep))
  {
    hide Apart, Flat, InsOk, AllOk, Lift, RoomForSep;
    StoredRank(env, x, k, v, reuse);
    StoredAround(env, kids, seps, k, v, reuse, i, x);
    PutAround(kids, seps, i, x, e);
    PutSlot(kids, seps, i, x, e);
    LiftOk(env, d, kids, seps, i, PutItems(x, e), below);
    LiftRoom(env, d, kids, seps, i, PutItems(x, e), below);
  }

  /** Insertion below a page: what is left is well formed and holds the old entries with the new one;
    * it fails if and only if a page on its way must take a node, has no room, and cannot be split. */
  lemma {:induction false} PutInOk(env: Env, t: Tree, d: nat, k: Key, v: Data, reuse: bool)
    requires env.Ok() && Wf(env, t, d) && Shaped(t, d) && (t.Branch? ==> Min(t)) && SepOk(k)
    ensures InsOk(env, d, PutItems(Items(t), Stored(env, Items(t), k, v, reuse)), PutIn(env, t, d, k, v, reuse))
    ensures PutIn(env, t, d, k, v, reuse).Full? <==> !RoomOnWay(env, t, d, k, v, reuse)
    decreases d
  {
    hide InsOk, Apart, Lift, RoomForSep, LeafOk, RoomInLeaf, PlaceEntry, Stored, PutItems, Flat;
    match t
    case Leaf(es) =>
      PutLeafOk(env, es, k, v, reuse);
      PutLeafRoom(env, es, k, v, reuse);
    case Branch(kids, seps) =>
      var i := ChildIndex(seps, k.rank);
      var x := Items(kids[i]);
      PutInOk(env, kids[i], d - 1, k, v, reuse);
      PutBranchOk(env, d - 1, kids, seps, k, v, reuse, i, x, Stored(env, x, k, v, reuse), PutIn(env, kids[i], d - 1, k, v, reuse));
  }
}
