/** mdb_env_copyfd1: the root of the copy is computed beforehand, from the number of free pages; the copy
  * fails if the walk ends elsewhere, which it does if and only if pages have leaked. */
module CompactRoot {
  import opened Compact
  import Mvcc
  import MvccSafety

  /** The free database of a snapshot: its records, and md_branch_pages, md_leaf_pages, md_overflow_pages. */
  datatype FreeDb = FreeDb(records: seq<(nat, seq<nat>)>, branchPages: nat, leafPages: nat, overflowPages: nat) {
    function Pages(): nat { branchPages + leafPages + overflowPages }
  }

  /** The number of pages listed in all records. */
  function Lengths(records: seq<(nat, seq<nat>)>): nat {
    if records == [] then 0 else Lengths(records[..|records| - 1]) + |records[|records| - 1].1|
  }

  function FreeCount(f: FreeDb): nat { Lengths(f.records) + f.Pages() }

  /** The loop over the free database, and its own pages. */
  method CountFree(f: FreeDb) returns (freecount: nat)
    ensures freecount == FreeCount(f)
  {
    freecount := 0;
    var i := 0;
    while i < |f.records|
      invariant 0 <= i <= |f.records| && freecount == Lengths(f.records[..i])
    {
      assert f.records[..i + 1][..i] == f.records[..i];
      freecount := freecount + |f.records[i].1|;
      i := i + 1;
    }
    assert f.records[..i] == f.records;
    freecount := freecount + f.branchPages + f.leafPages + f.overflowPages;
  }

  // ----- What the records hold -----

  predicate NoDup(l: seq<nat>) { forall i, j :: 0 <= i < j < |l| ==> l[i] != l[j] }

  function ToSet(l: seq<nat>): set<nat> { set p | p in l }

  /** One record for each key of `free`, and each page listed once in it. */
  ghost predicate Lists(records: seq<(nat, seq<nat>)>, free: Mvcc.Records) {
    && (forall i, j :: 0 <= i < j < |records| ==> records[i].0 != records[j].0)
    && (forall i :: 0 <= i < |records| ==>
          records[i].0 in free && NoDup(records[i].1) && ToSet(records[i].1) == free[records[i].0])
    && (forall k :: k in free ==> exists i :: 0 <= i < |records| && records[i].0 == k)
  }

  lemma {:induction false} NoDupSize(l: seq<nat>)
    requires NoDup(l)
    ensures |ToSet(l)| == |l|
  {
    if l != [] {
      var front, last := l[..|l| - 1], l[|l| - 1];
      NoDupSize(front);
      assert ToSet(l) == ToSet(front) + {last} && last !in ToSet(front);
    }
  }

  lemma {:induction false} RangeSize(s: set<nat>, next: nat)
    requires 2 <= next && forall p: nat :: p in s <==> 2 <= p < next
    ensures |s| == next - 2
  {
    if next == 2 {
      assert s == {};
    } else {
      RangeSize(s - {next - 1}, next - 1);
    }
  }

  lemma ListsFront(records: seq<(nat, seq<nat>)>, free: Mvcc.Records)
    requires Lists(records, free) && records != []
    ensures var (k, l) := records[|records| - 1];
      k in free && NoDup(l) && ToSet(l) == free[k] && Lists(records[..|records| - 1], Mvcc.Without(free, k))
  {
    var n := |records| - 1;
    var k, front, rest := records[n].0, records[..n], Mvcc.Without(free, records[n].0);
    forall j | j in rest ensures exists i :: 0 <= i < |front| && front[i].0 == j {
      var i :| 0 <= i < |records| && records[i].0 == j;
      assert front[i] == records[i];
    }
  }

  lemma WithoutRecords(tree: map<nat, int>, free: Mvcc.Records, rest: set<nat>, next: nat)
    requires MvccSafety.Partition(tree, free, rest, next) && 2 <= next && Lists([], free)
    ensures |tree.Keys| + |rest| == next - 2
  {
    assert forall p: nat :: !Mvcc.Listed(free, p);
    RangeSize(tree.Keys + rest, next);
  }

  lemma RecordApart(tree: map<nat, int>, free: Mvcc.Records, rest: set<nat>, next: nat, k: nat)
    requires MvccSafety.Partition(tree, free, rest, next) && k in free
    ensures |rest + free[k]| == |rest| + |free[k]|
  {
  }

  /** The pages from 2 up to `next`, counted: those of the tree, those in records, and the others. */
  lemma {:induction false} PagesCounted(records: seq<(nat, seq<nat>)>, tree: map<nat, int>, free: Mvcc.Records, rest: set<nat>, next: nat)
    requires MvccSafety.Partition(tree, free, rest, next) && 2 <= next && Lists(records, free)
    ensures |tree.Keys| + Lengths(records) + |rest| == next - 2
    decreases |records|
  {
    hide Lists, NoDup, MvccSafety.Partition;
    if records == [] {
      WithoutRecords(tree, free, rest, next);
    } else {
      var n := |records| - 1;
      var (k, l) := records[n];
      ListsFront(records, free);
      MvccSafety.MoveRecord(tree, free, rest, next, k);
      NoDupSize(l);
      RecordApart(tree, free, rest, next, k);
      PagesCounted(records[..n], tree, Mvcc.Without(free, k), rest + free[k], next);
    }
  }

  // ----- The root -----

  /** The pages below `next` are those of the tree to be copied, those of the free database, those listed in
    * its records, and leaked ones. */
  ghost predicate Accounted(t: Tree, f: FreeDb, main: set<nat>, freeDbPages: set<nat>,
                            tree: map<nat, int>, free: Mvcc.Records, leaked: set<nat>, next: nat)
  {
    && Ok(t, false) && 2 <= next && MvccSafety.Partition(tree, free, leaked, next) && Lists(f.records, free)
    && tree.Keys == main + freeDbPages && main !! freeDbPages && |main| == Count(t) && |freeDbPages| == f.Pages()
  }

  /** The root computed beforehand is the root of the copy if and only if no page has leaked; otherwise it
    * is too high by as many. */
  lemma NewRootRight(t: Tree, f: FreeDb, main: set<nat>, freeDbPages: set<nat>,
                     tree: map<nat, int>, free: Mvcc.Records, leaked: set<nat>, next: nat)
    requires Accounted(t, f, main, freeDbPages, tree, free, leaked, next)
    ensures next - 1 - FreeCount(f) == WriteTree(t, [Meta, Meta]).1 + |leaked|
    ensures next - 1 - FreeCount(f) == WriteTree(t, [Meta, Meta]).1 <==> leaked == {}
  {
    WritesCount(t, false, [Meta, Meta]);
    PagesCounted(f.records, tree, free, leaked, next);
  }

  /** No snapshot committed in a run of readers, writers and crashes has leaked pages, so its copy has the
    * root computed beforehand. */
  lemma SnapshotCopies(run: seq<Mvcc.State>, i: nat, t: Tree, f: FreeDb, main: set<nat>, freeDbPages: set<nat>)
    requires MvccSafety.IsRun(run) && i < |run|
    requires var d := run[i].disk; var s := MvccSafety.Snap(d.snaps, Mvcc.Newest(d));
      && Ok(t, false) && Lists(f.records, s.free) && s.tree.Keys == main + freeDbPages && main !! freeDbPages
      && |main| == Count(t) && |freeDbPages| == f.Pages()
    ensures var d := run[i].disk; var s := MvccSafety.Snap(d.snaps, Mvcc.Newest(d));
      s.next - 1 - FreeCount(f) == WriteTree(t, [Meta, Meta]).1
  {
    var s := MvccSafety.Snap(run[i].disk.snaps, Mvcc.Newest(run[i].disk));
    MvccSafety.NewestOk(run, i);
    NewRootRight(t, f, main, freeDbPages, s.tree, s.free, {}, s.next);
  }

  /** mdb_env_copyfd1.  For a database whose pages are accounted for, the test at the end is on leaked pages
    * (NewRootRight); in any case it is on the number of pages. */
  method CopyEnv(cap: nat, root: Option<Tree>, nextPgno: nat, f: FreeDb) returns (my: Copier, newRoot: int, ok: bool)
    requires cap >= NUM_METAS && (root.Some? ==> Ok(root.value, false))
    ensures Numbered(my.File()) && (root.None? ==> ok && my.File() == [Meta, Meta])
    ensures root.Some? ==> (ok <==> nextPgno - NUM_METAS == Count(root.value) + FreeCount(f))
    ensures ok && root.Some? ==> newRoot >= 0 && ReadTree(my.File(), newRoot) == root && newRoot == |my.File()| - 1
  {
    my := new Copier(cap);
    newRoot := -1;
    ok := true;
    match root {
      case None =>
      case Some(t) =>
        CopyCorrect(t, my.File());
        var freecount := CountFree(f);
        newRoot := nextPgno - 1 - freecount;
        var pg := my.Walk(t, false);
        ok := pg == newRoot;
    }
  }

  /** The copy succeeds if and only if no page has leaked. */
  method CopyAccounted(cap: nat, t: Tree, nextPgno: nat, f: FreeDb, ghost main: set<nat>, ghost freeDbPages: set<nat>,
                       ghost tree: map<nat, int>, ghost free: Mvcc.Records, ghost leaked: set<nat>)
    returns (my: Copier, newRoot: int, ok: bool)
    requires cap >= NUM_METAS && Accounted(t, f, main, freeDbPages, tree, free, leaked, nextPgno)
    ensures ok <==> leaked == {}
    ensures ok ==> newRoot >= 0 && ReadTree(my.File(), newRoot) == Some(t) && newRoot == |my.File()| - 1
  {
    my, newRoot, ok := CopyEnv(cap, Some(t), nextPgno, f);
    PagesCounted(f.records, tree, free, leaked, nextPgno);
  }
}
