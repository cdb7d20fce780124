/** The entries of a tree from left to right, and what updating them means for the map they hold. */
module BTreeItems {
  import opened SplitPoint
  import opened BTree

  // ----- Flattening -----

  lemma {:induction false} FlatConcat(a: seq<Tree>, b: seq<Tree>)
    ensures Flat(a + b) == Flat(a) + Flat(b)
  {
    if a == [] {
      assert a + b == b;
    } else {
      assert (a + b)[1..] == a[1..] + b;
      FlatConcat(a[1..], b);
    }
  }

  lemma FlatOne(t: Tree)
    ensures Flat([t]) == Items(t)
  {
    assert Flat([t]) == Items(t) + Flat([]);
  }

  lemma FlatThree(a: seq<Tree>, t: Tree, b: seq<Tree>)
    ensures Flat(a + [t] + b) == Flat(a) + Items(t) + Flat(b)
  {
    FlatConcat(a + [t], b);
    FlatConcat(a, [t]);
    FlatOne(t);
  }

  lemma FlatFour(a: seq<Tree>, s: Tree, t: Tree, b: seq<Tree>)
    ensures Flat(a + [s, t] + b) == Flat(a) + (Items(s) + Items(t)) + Flat(b)
  {
    assert a + [s, t] + b == a + [s] + ([t] + b);
    FlatThree(a, s, [t] + b);
    FlatConcat([t], b);
    FlatOne(t);
  }

  lemma {:induction false} FlatBelow(kids: seq<Tree>, r: real)
    requires forall i :: 0 <= i < |kids| ==> Below(Parts(kids)[i], r)
    ensures Below(Flat(kids), r)
  {
    if kids != [] {
      var rest := kids[1..];
      assert forall i :: 0 <= i < |rest| ==> Parts(rest)[i] == Parts(kids)[i + 1];
      FlatBelow(rest, r);
      assert Below(Parts(kids)[0], r);
    }
  }

  lemma {:induction false} FlatFrom(kids: seq<Tree>, r: real)
    requires forall i :: 0 <= i < |kids| ==> From(Parts(kids)[i], r)
    ensures From(Flat(kids), r)
  {
    if kids != [] {
      var rest := kids[1..];
      assert forall i :: 0 <= i < |rest| ==> Parts(rest)[i] == Parts(kids)[i + 1];
      FlatFrom(rest, r);
      assert From(Parts(kids)[0], r);
    }
  }

  lemma BelowUp(es: seq<Entry>, r: real, q: real)
    requires Below(es, r) && r <= q
    ensures Below(es, q)
  {
  }

  lemma FromDown(es: seq<Entry>, r: real, q: real)
    requires From(es, r) && q <= r
    ensures From(es, q)
  {
  }

  /** Children before a separator are below it, children after it are not. */
  lemma SeparatorCuts(kids: seq<Tree>, seps: seq<Key>, j: nat)
    requires Apart(Parts(kids), seps) && j < |seps|
    ensures Below(Flat(kids[..j + 1]), seps[j].rank) && From(Flat(kids[j + 1..]), seps[j].rank)
  {
    var lo, hi := kids[..j + 1], kids[j + 1..];
    forall i | 0 <= i < |lo| ensures Below(Parts(lo)[i], seps[j].rank) {
      BelowUp(Parts(kids)[i], seps[i].rank, seps[j].rank);
    }
    FlatBelow(lo, seps[j].rank);
    forall i | 0 <= i < |hi| ensures From(Parts(hi)[i], seps[j].rank) {
      FromDown(Parts(kids)[j + 1 + i], seps[j + i].rank, seps[j].rank);
    }
    FlatFrom(hi, seps[j].rank);
  }

  // ----- Sorted entries -----

  function PutItems(es: seq<Entry>, e: Entry): seq<Entry> {
    var p := Pos(es, e.key.rank);
    if Has(es, e.key.rank) then es[p := e] else InsertAt(es, p, e)
  }

  function DelItems(es: seq<Entry>, r: real): seq<Entry> {
    if Has(es, r) then RemoveAt(es, Pos(es, r)) else es
  }

  /** The map a list of entries stands for. */
  function Contents(es: seq<Entry>): map<real, Data> {
    if es == [] then map[] else Contents(es[..|es| - 1])[es[|es| - 1].key.rank := es[|es| - 1].data]
  }

  predicate AllAbove(es: seq<Entry>, r: real) { forall e :: e in es ==> e.key.rank > r }

  lemma PosUnique(es: seq<Entry>, r: real, i: nat)
    requires i <= |es| && (i < |es| ==> es[i].key.rank >= r) && forall j :: 0 <= j < i ==> es[j].key.rank < r
    ensures Pos(es, r) == i
  {
  }

  /** A key between the two outer parts is looked for in the middle part. */
  lemma PosBetween(a: seq<Entry>, x: seq<Entry>, b: seq<Entry>, r: real)
    requires Below(a, r) && AllAbove(b, r)
    ensures Pos(a + x + b, r) == |a| + Pos(x, r)
    ensures Has(a + x + b, r) <==> Has(x, r)
  {
    var all := a + x + b;
    var p := |a| + Pos(x, r);
    assert p < |all| ==> all[p] == if Pos(x, r) < |x| then x[Pos(x, r)] else b[0];
    forall j | 0 <= j < p ensures all[j].key.rank < r {
      if j < |a| { assert all[j] == a[j] && a[j] in a; } else { assert all[j] == x[j - |a|]; }
    }
    assert p < |all| && Pos(x, r) == |x| ==> b[0] in b;
    PosUnique(all, r, p);
  }

  lemma PutBetween(a: seq<Entry>, x: seq<Entry>, b: seq<Entry>, e: Entry)
    requires Below(a, e.key.rank) && AllAbove(b, e.key.rank)
    ensures PutItems(a + x + b, e) == a + PutItems(x, e) + b
  {
    hide Below, AllAbove, Pos, Has, InsertAt;
    PosBetween(a, x, b, e.key.rank);
    if Has(x, e.key.rank) { HasMeans(x, e.key.rank); HasMeans(a + x + b, e.key.rank); }
    ChangedBetween(a, x, b, Pos(x, e.key.rank), e);
  }

  lemma HasMeans(es: seq<Entry>, r: real)
    requires Has(es, r)
    ensures Pos(es, r) < |es|
  {
  }

  lemma ChangedBetween<T>(a: seq<T>, x: seq<T>, b: seq<T>, i: nat, e: T)
    requires i <= |x|
    ensures InsertAt(a + x + b, |a| + i, e) == a + InsertAt(x, i, e) + b
    ensures i < |x| ==> (a + x + b)[|a| + i := e] == a + x[i := e] + b
  {
    var all := a + x + b;
    assert all[..|a| + i] == a + x[..i] && all[|a| + i..] == x[i..] + b;
  }

  lemma RemoveBetween(a: seq<Entry>, x: seq<Entry>, b: seq<Entry>, i: nat)
    requires i < |x|
    ensures RemoveAt(a + x + b, |a| + i) == a + RemoveAt(x, i) + b
  {
  }

  lemma DelBetween(a: seq<Entry>, x: seq<Entry>, b: seq<Entry>, r: real)
    requires Below(a, r) && AllAbove(b, r)
    ensures DelItems(a + x + b, r) == a + DelItems(x, r) + b
  {
    PosBetween(a, x, b, r);
    if Has(x, r) { RemoveBetween(a, x, b, Pos(x, r)); }
  }

  lemma PutMembers(es: seq<Entry>, e: Entry)
    ensures forall x :: x in PutItems(es, e) ==> x == e || x in es
    ensures forall x :: x in es && x.key.rank != e.key.rank ==> x in PutItems(es, e)
  {
    var p := Pos(es, e.key.rank);
    if !Has(es, e.key.rank) {
      forall x | x in es ensures x in PutItems(es, e) {
        var i :| 0 <= i < |es| && es[i] == x;
        assert PutItems(es, e)[if i < p then i else i + 1] == x;
      }
    } else {
      forall x | x in es && x.key.rank != e.key.rank ensures x in PutItems(es, e) {
        var i :| 0 <= i < |es| && es[i] == x;
        assert PutItems(es, e)[i] == x;
      }
    }
  }

  lemma SortedConcat(a: seq<Entry>, b: seq<Entry>, r: real)
    requires SortedEntries(a) && SortedEntries(b) && Below(a, r) && From(b, r)
    ensures SortedEntries(a + b)
  {
    assert forall i :: 0 <= i < |a| ==> a[i] in a;
    assert forall i :: 0 <= i < |b| ==> b[i] in b;
  }

  lemma PutSorted(es: seq<Entry>, e: Entry)
    requires SortedEntries(es)
    ensures SortedEntries(PutItems(es, e))
  {
  }

  lemma DelSorted(es: seq<Entry>, r: real)
    requires SortedEntries(es)
    ensures SortedEntries(DelItems(es, r))
  {
  }

  // ----- The map -----

  lemma PosOfFront(front: seq<Entry>, e: Entry, r: real)
    ensures Pos(front + [e], r) ==
      if Pos(front, r) < |front| then Pos(front, r) else if e.key.rank >= r then |front| else |front| + 1
  {
    var es := front + [e];
    PosUnique(es, r, if Pos(front, r) < |front| then Pos(front, r) else if e.key.rank >= r then |front| else |front| + 1);
  }

  lemma {:induction false} ContentsAt(es: seq<Entry>, r: real)
    requires SortedEntries(es)
    ensures r in Contents(es) <==> Has(es, r)
    ensures Has(es, r) ==> Contents(es)[r] == es[Pos(es, r)].data
  {
    if es != [] {
      var front, e := es[..|es| - 1], es[|es| - 1];
      assert es == front + [e];
      ContentsAt(front, r);
      PosOfFront(front, e, r);
    }
  }

  /** Entries other than the one put keep their places, or move up one. */
  lemma PutIndexed(es: seq<Entry>, e: Entry)
    requires !Has(es, e.key.rank)
    ensures |PutItems(es, e)| == |es| + 1 && PutItems(es, e)[Pos(es, e.key.rank)] == e
    ensures forall i :: 0 <= i < Pos(es, e.key.rank) ==> PutItems(es, e)[i] == es[i]
    ensures forall i :: Pos(es, e.key.rank) < i <= |es| ==> PutItems(es, e)[i] == es[i - 1]
  {
  }

  lemma LookupInserted(es: seq<Entry>, e: Entry, es': seq<Entry>, r: real)
    requires SortedEntries(es) && !Has(es, e.key.rank) && |es'| == |es| + 1 && es'[Pos(es, e.key.rank)] == e
    requires forall i :: 0 <= i < Pos(es, e.key.rank) ==> es'[i] == es[i]
    requires forall i :: Pos(es, e.key.rank) < i < |es'| ==> es'[i] == es[i - 1]
    ensures Has(es', r) <==> Has(es, r) || r == e.key.rank
    ensures Has(es', r) ==> es'[Pos(es', r)].data == if r == e.key.rank then e.data else es[Pos(es, r)].data
  {
    var q := Pos(es, r);
    PosUnique(es', r, if r <= e.key.rank then q else q + 1);
  }

  lemma LookupReplaced(es: seq<Entry>, e: Entry, r: real)
    requires SortedEntries(es) && Has(es, e.key.rank)
    ensures var es' := es[Pos(es, e.key.rank) := e];
      (Has(es', r) <==> Has(es, r)) &&
      (Has(es', r) ==> es'[Pos(es', r)].data == if r == e.key.rank then e.data else es[Pos(es, r)].data)
  {
    PosUnique(es[Pos(es, e.key.rank) := e], r, Pos(es, r));
  }

  lemma PutLookup(es: seq<Entry>, e: Entry, es': seq<Entry>, r: real)
    requires SortedEntries(es) && es' == PutItems(es, e)
    ensures Has(es', r) <==> Has(es, r) || r == e.key.rank
    ensures Has(es', r) ==> es'[Pos(es', r)].data == if r == e.key.rank then e.data else es[Pos(es, r)].data
  {
    if Has(es, e.key.rank) {
      LookupReplaced(es, e, r);
    } else {
      PutIndexed(es, e);
      LookupInserted(es, e, es', r);
    }
  }

  /** Updating the list updates the map at one key. */
  lemma PutContents(es: seq<Entry>, e: Entry)
    requires SortedEntries(es)
    ensures Contents(PutItems(es, e)) == Contents(es)[e.key.rank := e.data]
  {
    var es' := PutItems(es, e);
    var m, m' := Contents(es), Contents(es');
    PutSorted(es, e);
    forall r ensures (r in m' <==> r in m || r == e.key.rank) && (r in m' ==> m'[r] == if r == e.key.rank then e.data else m[r])
    {
      PutLookup(es, e, es', r);
      ContentsAt(es, r);
      ContentsAt(es', r);
    }
  }

  lemma RemovedAt(es: seq<Entry>, p: nat)
    requires p < |es|
    ensures |RemoveAt(es, p)| == |es| - 1
    ensures forall i :: 0 <= i < |es| - 1 ==> RemoveAt(es, p)[i] == es[if i < p then i else i + 1]
  {
  }

  lemma DelLookup(es: seq<Entry>, r: real, es': seq<Entry>, x: real)
    requires SortedEntries(es) && Has(es, r) && |es'| == |es| - 1
    requires forall i :: 0 <= i < |es'| ==> es'[i] == es[if i < Pos(es, r) then i else i + 1]
    ensures Has(es', x) <==> Has(es, x) && x != r
    ensures Has(es', x) ==> es'[Pos(es', x)].data == es[Pos(es, x)].data
  {
    var q := Pos(es, x);
    PosUnique(es', x, if q <= Pos(es, r) then q else q - 1);
  }

  lemma DelContentsAt(es: seq<Entry>, r: real, es': seq<Entry>, x: real)
    requires SortedEntries(es) && SortedEntries(es') && Has(es, r) && es' == RemoveAt(es, Pos(es, r))
    ensures x in Contents(es') <==> x in Contents(es) && x != r
    ensures x in Contents(es') ==> Contents(es')[x] == Contents(es)[x]
  {
    hide Contents, PosFrom;
    RemovedAt(es, Pos(es, r));
    DelLookup(es, r, es', x);
    ContentsAt(es, x);
    ContentsAt(es', x);
  }

  lemma DelContents(es: seq<Entry>, r: real)
    requires SortedEntries(es)
    ensures Contents(DelItems(es, r)) == Contents(es) - {r}
  {
    hide Contents, PosFrom;
    DelSorted(es, r);
    ContentsAt(es, r);
    if Has(es, r) {
      var es' := RemoveAt(es, Pos(es, r));
      var m, m' := Contents(es), Contents(es');
      forall x ensures (x in m' <==> x in m && x != r) && (x in m' ==> m'[x] == m[x]) { DelContentsAt(es, r, es', x); }
      assert m' == m - {r};
    }
  }

  // ----- Bytes -----

  lemma LeafUsedConcat(a: seq<Entry>, b: seq<Entry>)
    ensures LeafUsed(a + b) == LeafUsed(a) + LeafUsed(b)
  {
    assert LeafSizes(a + b) == LeafSizes(a) + LeafSizes(b);
    BytesConcat(LeafSizes(a), LeafSizes(b));
  }

  lemma LeafUsedOne(e: Entry)
    ensures LeafUsed([e]) == EntrySize(e)
  {
    assert Bytes(LeafSizes([e]), 0, 0) == 0;
  }

  lemma LeafUsedInsert(es: seq<Entry>, i: nat, e: Entry)
    requires i <= |es|
    ensures LeafUsed(InsertAt(es, i, e)) == LeafUsed(es) + EntrySize(e)
  {
    LeafUsedOne(e);
    LeafUsedConcat(es[..i], [e]);
    LeafUsedConcat(es[..i] + [e], es[i..]);
    LeafUsedConcat(es[..i], es[i..]);
    assert es == es[..i] + es[i..];
  }

  lemma LeafUsedRemove(es: seq<Entry>, i: nat)
    requires i < |es|
    ensures LeafUsed(RemoveAt(es, i)) == LeafUsed(es) - EntrySize(es[i])
  {
    LeafUsedInsert(RemoveAt(es, i), i, es[i]);
    assert InsertAt(RemoveAt(es, i), i, es[i]) == es;
  }

  lemma BranchUsedConcat(a: seq<Key>, b: seq<Key>)
    ensures BranchUsed(a + b) == BranchUsed(a) + BranchUsed(b) - HEADER
  {
    var sa, sb := BranchSizes(a), BranchSizes(b);
    assert BranchSizes(a + b) == sa + sb[1..];
    BytesConcat(sa, sb[1..]);
    BytesSplit(sb, 0, 1, |sb|);
    assert Bytes(sb, 0, 1) == HEADER;
    BytesDrop(sb, 1);
  }

  lemma BranchUsedOne(k: Key)
    ensures BranchUsed([k]) == HEADER + SepSize(k)
  {
    assert Bytes(BranchSizes([k]), 0, 1) == HEADER;
  }

  lemma BranchUsedInsert(seps: seq<Key>, i: nat, k: Key)
    requires i <= |seps|
    ensures BranchUsed(InsertAt(seps, i, k)) == BranchUsed(seps) + SepSize(k)
  {
    BranchUsedOne(k);
    BranchUsedConcat(seps[..i], [k]);
    BranchUsedConcat(seps[..i] + [k], seps[i..]);
    BranchUsedConcat(seps[..i], seps[i..]);
    assert seps == seps[..i] + seps[i..];
  }

  lemma BranchUsedRemove(seps: seq<Key>, i: nat)
    requires i < |seps|
    ensures BranchUsed(RemoveAt(seps, i)) == BranchUsed(seps) - SepSize(seps[i])
  {
    BranchUsedInsert(RemoveAt(seps, i), i, seps[i]);
    assert InsertAt(RemoveAt(seps, i), i, seps[i]) == seps;
  }

  lemma BranchUsedUpdate(seps: seq<Key>, i: nat, k: Key)
    requires i < |seps|
    ensures BranchUsed(seps[i := k]) == BranchUsed(seps) - SepSize(seps[i]) + SepSize(k)
  {
    BranchUsedRemove(seps, i);
    BranchUsedInsert(RemoveAt(seps, i), i, k);
    assert InsertAt(RemoveAt(seps, i), i, k) == seps[i := k];
  }
}
