/** What every run of the machine in module Mvcc keeps, and why readers and crashes are safe. */
module MvccSafety {
  import opened Mvcc

  // ----- The invariant, part by part -----

  /** Each page from 2 up to `next` is in the tree, in one record, or in `rest`, and in one only. */
  ghost predicate Partition(tree: map<nat, int>, recs: Records, rest: set<nat>, next: nat) {
    && RecordsDisjoint(recs)
    && (forall k :: k in recs ==> recs[k] !! tree.Keys && recs[k] !! rest)
    && tree.Keys !! rest
    && (forall p: nat :: 2 <= p < next <==> p in tree || p in rest || Listed(recs, p))
  }

  ghost predicate SnapshotOk(t: Snapshot, id: nat) {
    && Partition(t.tree, t.free, {}, t.next)
    && 2 <= t.next
    && KeysIn(t.free, id)
  }

  predicate KeysIn(recs: Records, id: nat) { forall k :: k in recs ==> 1 <= k <= id }

  function Snap(snaps: map<nat, Snapshot>, u: nat): Snapshot {
    if u in snaps then snaps[u] else Snapshot(map[], map[], 2)
  }

  /** The pages are in no tree of the snapshots from lo to n. */
  ghost predicate Unused(snaps: map<nat, Snapshot>, lo: nat, n: nat, pages: set<nat>) {
    forall u: nat :: lo <= u <= n ==> pages !! Snap(snaps, u).tree.Keys
  }

  /** The snapshots that may still be wanted, those from lo to the newest n: each accounts for all
    * its pages; page numbers only grow; and a page that snapshot b lists as freed under key k is in
    * no snapshot from k up to b. */
  ghost predicate HistoryOk(snaps: map<nat, Snapshot>, lo: nat, n: nat) {
    && lo <= n
    && (forall u: nat :: lo <= u <= n ==> u in snaps && SnapshotOk(Snap(snaps, u), u))
    && (forall u: nat, b: nat :: lo <= u <= b <= n ==> Snap(snaps, u).next <= Snap(snaps, b).next)
    && (forall b: nat, k :: lo <= b <= n && k in Snap(snaps, b).free ==>
          Unused(snaps, if k < lo then lo else k, b, Snap(snaps, b).free[k]))
  }

  /** Every page of the tree is in the file, durable, with its contents. */
  ghost predicate IntactTree(content: map<nat, int>, unsynced: set<nat>, t: map<nat, int>) {
    forall p :: p in t ==> p in content && content[p] == t[p] && p !in unsynced
  }

  ghost predicate Intact(d: Disk) {
    forall u: nat :: d.lo <= u <= Newest(d) ==> IntactTree(d.content, d.unsynced, Snap(d.snaps, u).tree)
  }

  ghost predicate MetaOk(d: Disk) {
    var n := Newest(d);
    && (n == 0 ==> d.meta0 == 0 && d.meta1 == 0)
    && (n > 0 ==> MetaAt(d, n) == n && MetaAt(d, n + 1) == n - 1)
    && (!d.metaDurable ==> d.lo + 1 <= n)
  }

  ghost predicate DiskOk(d: Disk) {
    MetaOk(d) && HistoryOk(d.snaps, d.lo, Newest(d)) && Intact(d)
  }

  ghost predicate Holds(x: Slot, v: nat) { x.pid != 0 && x.txnid == Some(v) }

  ghost predicate SlotOk(x: Slot, lo: nat, pub: nat, newest: nat) {
    match x.reader
    case Unclaimed => x.pid == 0
    case Claiming(p) => x.pid == 0 && p != 0
    case Idle => x.pid != 0
    case Retry => x.pid != 0
    case Loaded(v) => x.pid != 0
    case Stored(v) => Holds(x, v)
    case Registered(v) => Holds(x, v) && lo <= v <= pub
    case Reading(v, a) => Holds(x, v) && lo <= v <= pub && v <= a <= newest
    case Dead => x.pid != 0
  }

  predicate Live(x: Slot) { x.reader.Registered? || x.reader.Reading? }

  /** Every cached oldest id, in every process, is a lower bound of the live readers. */
  ghost predicate CachesOk(t: Table) {
    && (forall p :: p in t.oldest ==> t.oldest[p] <= t.pub)
    && (forall p, j :: p in t.oldest && 0 <= j < |t.slots| && Live(t.slots[j]) ==>
          t.oldest[p] <= t.slots[j].reader.s)
  }

  ghost predicate TableOk(t: Table, lo: nat, newest: nat) {
    && lo <= t.pub <= newest <= t.pub + 1
    && (forall j :: 0 <= j < |t.slots| ==> SlotOk(t.slots[j], lo, t.pub, newest))
    && CachesOk(t)
  }

  /** A walk under way is at or below every live reader from slot i up. */
  ghost predicate SeenFrom(t: Table, i: nat, acc: nat) {
    && acc <= t.pub
    && i <= |t.slots|
    && forall j :: i <= j < |t.slots| && Live(t.slots[j]) ==> acc <= t.slots[j].reader.s
  }

  ghost predicate ScanOk(t: Table, scan: Scan) {
    match scan
    case NoScan => true
    case At(i, acc) => SeenFrom(t, i, acc)
    case Seen(i, acc) => SeenFrom(t, i + 1, acc)
  }

  ghost function Rest(w: Work): set<nat> { w.pghead + w.freePgs + w.loose }

  /** The page lists of a running transaction, with its tree, partition its pages. */
  ghost predicate Accounts(w: Work) {
    && Partition(w.tree, w.recs, Rest(w), w.next)
    && w.pghead !! w.freePgs && w.pghead !! w.loose && w.freePgs !! w.loose
    && (w.pglast == 0 ==> w.pghead == {})
    && w.dirty <= w.own && w.loose <= w.dirty
  }

  /** No page the transaction may write is in a snapshot that may still be wanted. */
  ghost predicate Fresh(d: Disk, w: Work) { Unused(d.snaps, d.lo, Newest(d), w.own + w.pghead) }

  /** Records not yet fetched, and tree pages not yet copied, are those of the base snapshot. */
  ghost predicate FromBase(base: Snapshot, w: Work) {
    && base.next <= w.next
    && (forall k :: k in w.recs ==> k > w.pglast && k in base.free && w.recs[k] == base.free[k])
    && (forall p :: p in w.tree && p !in w.own ==> p in base.tree && w.tree[p] == base.tree[p])
  }

  /** Tree pages already flushed are in the file with their contents. */
  ghost predicate FlushedOk(content: map<nat, int>, w: Work) {
    forall p :: p in w.tree && p in w.own && p !in w.dirty ==> p in content && content[p] == w.tree[p]
  }

  ghost predicate WorkOk(d: Disk, w: Work) {
    && Accounts(w) && Fresh(d, w) && FlushedOk(d.content, w) && w.pglast <= d.lo
    && FromBase(Snap(d.snaps, Newest(d)), w)
  }

  /** The snapshot about to be committed keeps the history in order... */
  ghost predicate NextSnapshot(snaps: map<nat, Snapshot>, lo: nat, n: nat, fin: Snapshot) {
    && SnapshotOk(fin, n + 1)
    && Snap(snaps, n).next <= fin.next
    && (forall k :: k in fin.free ==> Unused(snaps, if k < lo then lo else k, n, fin.free[k]))
  }

  /** ... and its pages are in the file once flushed. */
  ghost predicate FinalOk(d: Disk, w: Work, fin: Snapshot) {
    && NextSnapshot(d.snaps, d.lo, Newest(d), fin)
    && fin.tree == w.tree
    && w.dirty <= w.own
    && Unused(d.snaps, d.lo, Newest(d), w.own)
    && (forall p :: p in w.tree && p !in w.dirty ==> p in d.content && d.content[p] == w.tree[p])
  }

  ghost predicate PhaseOk(d: Disk, t: Table, w: Writer) {
    && w.base == t.pub
    && match w.phase
       case Active(scan) => Newest(d) == t.pub && ScanOk(t, scan) && WorkOk(d, w.work)
       case Saved(fin) => Newest(d) == t.pub && FinalOk(d, w.work, fin)
       case Synced(fin) => Newest(d) == t.pub && NextSnapshot(d.snaps, d.lo, Newest(d), fin)
           && IntactTree(d.content, d.unsynced, fin.tree) && d.metaDurable
       case Written => Newest(d) == t.pub + 1
  }

  ghost predicate Inv(s: State) {
    && DiskOk(s.disk)
    && TableOk(s.table, s.disk.lo, Newest(s.disk))
    && (if s.writer.Some? then !s.orphan && PhaseOk(s.disk, s.table, s.writer.value)
        else s.orphan || s.table.pub == Newest(s.disk))
  }

  // ----- Readers -----

  lemma PutSlotKeeps(t: Table, lo: nat, n: nat, j: nat, x: Slot)
    requires TableOk(t, lo, n) && j <= |t.slots| && SlotOk(x, lo, t.pub, n)
    requires Live(x) ==> x.reader.s == t.pub || (j < |t.slots| && Live(t.slots[j]) && t.slots[j].reader.s == x.reader.s)
    ensures TableOk(PutSlot(t, j, x), lo, n)
    ensures forall scan :: ScanOk(t, scan) ==> ScanOk(PutSlot(t, j, x), scan)
  {
    var t' := PutSlot(t, j, x);
    forall i, acc | SeenFrom(t, i, acc) ensures SeenFrom(t', i, acc) {}
  }

  /** A reader that copies a meta page gets a snapshot at least as new as its registration. */
  lemma MetaIsWanted(d: Disk, v: nat)
    requires MetaOk(d) && v <= Newest(d)
    ensures v <= MetaAt(d, v) <= Newest(d)
  {
  }

  lemma NewSlotOk(t: Table, lo: nat, n: nat, j: nat, r: ReaderStep, inMeta: nat)
    requires TableOk(t, lo, n) && ReaderCan(t, j, r)
    requires r.CopyMeta? ==> t.slots[j].reader.s <= inMeta <= n
    ensures var x := NewSlot(t, j, r, inMeta);
      && SlotOk(x, lo, t.pub, n)
      && (Live(x) ==> x.reader.s == t.pub || (j < |t.slots| && Live(t.slots[j]) && t.slots[j].reader.s == x.reader.s))
  {
  }

  lemma ReaderKeeps(s: State, step: Step)
    requires Inv(s) && Enabled(s, step) && step.ReaderDoes?
    ensures Inv(Do(s, step))
  {
    if step.r.CopyMeta? { MetaIsWanted(s.disk, s.table.slots[step.j].reader.s); }
    NewSlotOk(s.table, s.disk.lo, Newest(s.disk), step.j, step.r, InMeta(s, step.j, step.r));
    PutSlotKeeps(s.table, s.disk.lo, Newest(s.disk), step.j, NewSlot(s.table, step.j, step.r, InMeta(s, step.j, step.r)));
  }

  lemma KillTableKeeps(t: Table, lo: nat, n: nat, p: nat)
    requires TableOk(t, lo, n) && p != 0
    ensures TableOk(KillTable(t, p), lo, n)
    ensures forall scan :: ScanOk(t, scan) ==> ScanOk(KillTable(t, p), scan)
  {
    var t' := KillTable(t, p);
    forall i, acc | SeenFrom(t, i, acc) ensures SeenFrom(t', i, acc) {}
  }

  lemma KillKeeps(s: State, step: Step)
    requires Inv(s) && Enabled(s, step) && step.Kill?
    ensures Inv(Do(s, step))
  {
    KillTableKeeps(s.table, s.disk.lo, Newest(s.disk), step.p);
  }

  // ----- Starting a transaction and walking the reader table -----

  lemma BeginKeeps(s: State, step: Step)
    requires Inv(s) && Enabled(s, step) && step.Begin?
    ensures Inv(Do(s, step))
  {
    var d := s.disk;
    var w := StartWork(Snap(d.snaps, Newest(d)));
    assert SnapshotOk(Snap(d.snaps, Newest(d)), Newest(d));
    assert Rest(w) == {};
    assert WorkOk(d, w);
  }

  lemma ScanKeeps(s: State, step: Step)
    requires Inv(s) && Enabled(s, step)
    requires step.ScanStart? || step.ScanPid? || step.ScanTxnid? || step.ScanEnd?
    ensures Inv(Do(s, step))
  {
    hide DiskOk, WorkOk, FinalOk, NextSnapshot;
    NewestThere(s);
    var s' := Do(s, step);
    assert s'.disk == s.disk && s'.writer.value.work == s.writer.value.work;
    assert TableOk(s'.table, s'.disk.lo, Newest(s'.disk));
  }

  // ----- Page lists of the running transaction -----

  lemma MoveToTree(tree: map<nat, int>, recs: Records, rest: set<nat>, next: nat, m: map<nat, int>)
    requires Partition(tree, recs, rest, next) && m.Keys <= rest
    ensures Partition(tree + m, recs, rest - m.Keys, next)
  {
  }

  lemma MoveToRest(tree: map<nat, int>, recs: Records, rest: set<nat>, next: nat, gone: set<nat>)
    requires Partition(tree, recs, rest, next) && gone <= tree.Keys
    ensures Partition(Drop(tree, gone), recs, rest + gone, next)
  {
  }

  lemma AddNew(tree: map<nat, int>, recs: Records, rest: set<nat>, next: nat, m: map<nat, int>, n: nat)
    requires Partition(tree, recs, rest, next) && m.Keys == Run(next, n) && 2 <= next
    ensures Partition(tree + m, recs, rest, next + n)
  {
    forall k | k in recs ensures recs[k] !! (tree + m).Keys {
      forall p | p in recs[k] ensures p !in m { assert Listed(recs, p); }
    }
  }

  lemma MoveRecord(tree: map<nat, int>, recs: Records, rest: set<nat>, next: nat, k: nat)
    requires Partition(tree, recs, rest, next) && k in recs
    ensures Partition(tree, Without(recs, k), rest + recs[k], next)
  {
    var recs' := Without(recs, k);
    forall p: nat ensures Listed(recs, p) <==> p in recs[k] || Listed(recs', p) {
      if Listed(recs, p) && p !in recs[k] {
        var l :| l in recs && p in recs[l];
        assert l in recs' && p in recs'[l];
      }
      if Listed(recs', p) {
        var l :| l in recs' && p in recs'[l];
        assert l in recs && p in recs[l];
      }
    }
  }

  lemma NewPagesUnused(d: Disk, w: Work, n: nat)
    requires HistoryOk(d.snaps, d.lo, Newest(d)) && FromBase(Snap(d.snaps, Newest(d)), w)
    ensures Unused(d.snaps, d.lo, Newest(d), Run(w.next, n))
  {
    forall u: nat | d.lo <= u <= Newest(d) ensures Run(w.next, n) !! Snap(d.snaps, u).tree.Keys {
      var t := Snap(d.snaps, u);
      assert SnapshotOk(t, u) && t.next <= w.next;
      assert forall p :: p in t.tree ==> 2 <= p < t.next;
    }
  }

  lemma RaiseLoKeeps(d: Disk, oldest: nat, a: WorkStep)
    requires DiskOk(d) && oldest <= Newest(d) && (a.Fetch? ==> a.k < oldest)
    ensures DiskOk(RaiseLo(d, a)) && Newest(RaiseLo(d, a)) == Newest(d)
  {
    var d' := RaiseLo(d, a);
    var snaps, lo, lo', n := d.snaps, d.lo, d'.lo, Newest(d);
    forall b: nat, k | lo' <= b <= n && k in Snap(snaps, b).free
      ensures Unused(snaps, if k < lo' then lo' else k, b, Snap(snaps, b).free[k])
    {
      assert Unused(snaps, if k < lo then lo else k, b, Snap(snaps, b).free[k]);
    }
  }

  lemma FetchKeeps(d: Disk, w: Work, oldest: nat, k: nat)
    requires DiskOk(d) && WorkOk(d, w) && WorkCan(w, oldest, Fetch(k)) && oldest <= Newest(d)
    ensures WorkOk(RaiseLo(d, Fetch(k)), DoWork(w, oldest, Fetch(k)))
  {
    var d' := RaiseLo(d, Fetch(k));
    var w' := DoWork(w, oldest, Fetch(k));
    var n := Newest(d);
    MoveRecord(w.tree, w.recs, Rest(w), w.next, k);
    assert Rest(w') == Rest(w) + w.recs[k];
    assert k >= 1 by { assert SnapshotOk(Snap(d.snaps, n), n); }
    assert Unused(d.snaps, if k < d.lo then d.lo else k, n, w.recs[k]);
    assert Fresh(d', w');
  }

  lemma AllocKeepsAccounts(w: Work, step: WorkStep)
    requires Accounts(w) && WorkCan(w, 0, step) && 2 <= w.next
    requires step.AllocLoose? || step.AllocRun? || step.AllocNew?
    ensures Accounts(DoWork(w, 0, step))
  {
    var w' := DoWork(w, 0, step);
    match step {
      case AllocLoose(q, c) =>
        MoveToTree(w.tree, w.recs, Rest(w), w.next, map[q := c]);
        assert w'.tree == w.tree + map[q := c] && Rest(w') == Rest(w) - {q};
      case AllocRun(q, cs) =>
        MoveToTree(w.tree, w.recs, Rest(w), w.next, RunContent(q, cs));
        assert Rest(w') == Rest(w) - Run(q, |cs|);
      case AllocNew(cs) =>
        AddNew(w.tree, w.recs, Rest(w), w.next, RunContent(w.next, cs), |cs|);
        assert Rest(w') == Rest(w);
    }
  }

  /** What the lists of a running transaction owe to its base snapshot. */
  lemma WorkMeans(d: Disk, w: Work)
    requires DiskOk(d) && WorkOk(d, w)
    ensures Accounts(w) && 2 <= w.next && KeysIn(w.recs, Newest(d)) && (forall k :: k in w.recs ==> w.pglast < k)
    ensures w.pglast <= Newest(d) && Snap(d.snaps, Newest(d)).next <= w.next
  {
    hide Accounts, Fresh, FlushedOk, Partition, Unused, Intact, MetaOk, Newest, Snap;
    assert SnapshotOk(Snap(d.snaps, Newest(d)), Newest(d));
  }

  lemma AllocFresh(d: Disk, w: Work, step: WorkStep)
    requires DiskOk(d) && WorkOk(d, w) && WorkCan(w, 0, step)
    requires step.AllocLoose? || step.AllocRun? || step.AllocNew?
    ensures Fresh(d, DoWork(w, 0, step))
  {
    hide Accounts, FlushedOk, MetaOk, Intact, Newest, Snap, SnapshotOk, RunContent;
    if step.AllocNew? { NewPagesUnused(d, w, |step.cs|); }
    hide DiskOk, FromBase;
  }

  lemma AllocFromBase(base: Snapshot, content: map<nat, int>, w: Work, step: WorkStep)
    requires Accounts(w) && FromBase(base, w) && FlushedOk(content, w) && WorkCan(w, 0, step)
    requires step.AllocLoose? || step.AllocRun? || step.AllocNew?
    ensures FromBase(base, DoWork(w, 0, step)) && FlushedOk(content, DoWork(w, 0, step))
  {
    hide Partition;
  }

  lemma AllocKeeps(d: Disk, w: Work, step: WorkStep)
    requires DiskOk(d) && WorkOk(d, w) && WorkCan(w, 0, step)
    requires step.AllocLoose? || step.AllocRun? || step.AllocNew?
    ensures WorkOk(d, DoWork(w, 0, step))
  {
    hide Accounts, DiskOk, Newest, Snap, Fresh, FromBase, FlushedOk, WorkCan;
    WorkMeans(d, w);
    AllocKeepsAccounts(w, step);
    AllocFresh(d, w, step);
    AllocFromBase(Snap(d.snaps, Newest(d)), d.content, w, step);
  }

  lemma FreeKeepsAccounts(w: Work, step: WorkStep)
    requires Accounts(w) && WorkCan(w, 0, step)
    requires step.Write? || step.FreePage? || step.Loosen? || step.FreeOverflow? || step.Unspill?
    ensures Accounts(DoWork(w, 0, step))
  {
    var w' := DoWork(w, 0, step);
    match step {
      case Write(q, c) => assert w'.tree.Keys == w.tree.Keys;
      case FreePage(q) =>
        MoveToRest(w.tree, w.recs, Rest(w), w.next, {q});
        assert Rest(w') == Rest(w) + {q};
      case Loosen(q) =>
        MoveToRest(w.tree, w.recs, Rest(w), w.next, {q});
        assert Rest(w') == Rest(w) + {q};
      case FreeOverflow(q, n) =>
        MoveToRest(w.tree, w.recs, Rest(w), w.next, Run(q, n));
        assert Rest(w') == Rest(w) + Run(q, n);
      case Unspill(q) =>
    }
  }

  lemma FreeKeeps(d: Disk, w: Work, step: WorkStep)
    requires DiskOk(d) && WorkOk(d, w) && WorkCan(w, 0, step)
    requires step.Write? || step.FreePage? || step.Loosen? || step.FreeOverflow? || step.Unspill?
    ensures WorkOk(d, DoWork(w, 0, step))
  {
    FreeKeepsAccounts(w, step);
    assert Fresh(d, DoWork(w, 0, step));
  }

  lemma WorkStepKeeps(d: Disk, w: Work, oldest: nat, a: WorkStep)
    requires DiskOk(d) && WorkOk(d, w) && WorkCan(w, oldest, a) && oldest <= Newest(d)
    ensures WorkOk(RaiseLo(d, a), DoWork(w, oldest, a))
  {
    match a {
      case Fetch(k) => FetchKeeps(d, w, oldest, k);
      case AllocLoose(_, _) => AllocKeeps(d, w, a);
      case AllocRun(_, _) => AllocKeeps(d, w, a);
      case AllocNew(_) => AllocKeeps(d, w, a);
      case _ => FreeKeeps(d, w, a);
    }
  }

  /** What is reclaimed is older than every live reader. */
  lemma ReclaimBelowReaders(t: Table, lo: nat, n: nat, p: nat, k: nat)
    requires TableOk(t, lo, n) && k < Oldest(t, p)
    ensures TableOk(t, if lo < k then k else lo, n)
  {
  }

  lemma WorkKeeps(s: State, step: Step)
    requires Inv(s) && Enabled(s, step) && step.WriterDoes?
    ensures Inv(Do(s, step))
  {
    var w := s.writer.value;
    var a := step.w;
    var o := Oldest(s.table, w.proc);
    RaiseLoKeeps(s.disk, o, a);
    WorkStepKeeps(s.disk, w.work, o, a);
    if a.Fetch? { ReclaimBelowReaders(s.table, s.disk.lo, Newest(s.disk), w.proc, a.k); }
    var s' := Do(s, step);
    assert TableOk(s'.table, s'.disk.lo, Newest(s'.disk));
    assert PhaseOk(s'.disk, s'.table, s'.writer.value);
  }

  // ----- Flushing and committing -----

  lemma PutKeeps(d: Disk, w: Work, q: nat, c: int)
    requires DiskOk(d) && Unused(d.snaps, d.lo, Newest(d), w.own) && q in w.own
    ensures DiskOk(Put(d, q, c))
  {
  }

  lemma FlushedWork(d: Disk, w: Work, q: nat, c: int)
    requires DiskOk(d) && WorkOk(d, w) && q in w.dirty && q !in w.loose && (q in w.tree ==> c == w.tree[q])
    ensures WorkOk(Put(d, q, c), w.(dirty := w.dirty - {q}))
  {
    var w' := w.(dirty := w.dirty - {q});
    assert Rest(w') == Rest(w);
  }

  lemma FlushKeeps(s: State, step: Step)
    requires Inv(s) && Enabled(s, step) && step.Flush?
    ensures Inv(Do(s, step))
  {
    var w := s.writer.value.work;
    PutKeeps(s.disk, w, step.q, step.c);
    if s.writer.value.phase.Active? {
      FlushedWork(s.disk, w, step.q, step.c);
    } else {
      assert FinalOk(Put(s.disk, step.q, step.c), w.(dirty := w.dirty - {step.q}), s.writer.value.phase.fin);
    }
  }

  lemma AddRecord(tree: map<nat, int>, recs: Records, rest: set<nat>, next: nat, id: nat, f: set<nat>)
    requires Partition(tree, recs, rest, next) && f <= rest && id !in recs
    ensures Partition(tree, recs[id := f], rest - f, next)
  {
    var recs' := recs[id := f];
    forall p: nat ensures Listed(recs', p) <==> Listed(recs, p) || p in f {
      if p in f { assert p in recs'[id]; }
      if Listed(recs, p) {
        var k :| k in recs && p in recs[k];
        assert k in recs' && p in recs'[k];
      }
      if Listed(recs', p) {
        var k :| k in recs' && p in recs'[k];
        assert k == id || (k in recs && p in recs[k]);
      }
    }
  }

  lemma AddLeftover(tree: map<nat, int>, recs: Records, rest: set<nat>, next: nat, more: Records, l: set<nat>)
    requires Partition(tree, recs, rest, next) && l <= rest
    requires RecordsDisjoint(more) && more.Keys !! recs.Keys
    requires forall p: nat :: Listed(more, p) <==> p in l
    ensures Partition(tree, recs + more, rest - l, next)
  {
    var all := recs + more;
    forall p: nat ensures Listed(all, p) <==> Listed(recs, p) || p in l {
      if Listed(recs, p) {
        var k :| k in recs && p in recs[k];
        assert k in all && p in all[k];
      }
      if p in l {
        assert Listed(more, p);
        var k :| k in more && p in more[k];
        assert k in all && p in all[k];
      }
      if Listed(all, p) {
        var k :| k in all && p in all[k];
        assert (k in more && p in more[k]) || (k in recs && p in recs[k]);
      }
    }
    assert forall k :: k in more ==> more[k] <= l by {
      forall k, p | k in more && p in more[k] ensures p in l { assert Listed(more, p); }
    }
  }

  lemma SavedPartition(w: Work, id: nat, leftover: Records)
    requires Accounts(w) && LeftoverOk(w, leftover)
    requires forall k :: k in w.recs ==> w.pglast < k < id
    requires w.pglast < id
    ensures Partition(w.tree, SavedFree(w, id, leftover), {}, w.next)
  {
    var l := if w.pglast > 0 then w.pghead + w.loose else {};
    AddLeftover(w.tree, w.recs, Rest(w), w.next, leftover, l);
    assert Rest(w) - l == Freed(w);
    if Freed(w) != {} {
      AddRecord(w.tree, w.recs + leftover, Freed(w), w.next, id, Freed(w));
      assert Freed(w) - Freed(w) == {};
    }
  }

  lemma SavedUnused(d: Disk, w: Work, leftover: Records, free: Records, k: nat)
    requires DiskOk(d) && WorkOk(d, w) && LeftoverOk(w, leftover)
    requires free == SavedFree(w, Newest(d) + 1, leftover) && k in free
    ensures Unused(d.snaps, if k < d.lo then d.lo else k, Newest(d), free[k])
  {
    var n := Newest(d);
    if k == n + 1 && Freed(w) != {} {
    } else if k in leftover {
      assert free[k] <= w.own + w.pghead by {
        forall p | p in free[k] ensures p in w.own + w.pghead { assert Listed(leftover, p); }
      }
    } else {
      assert Unused(d.snaps, if k < d.lo then d.lo else k, n, Snap(d.snaps, n).free[k]);
    }
  }

  lemma SavedKeys(w: Work, n: nat, leftover: Records)
    requires KeysIn(w.recs, n) && KeysIn(leftover, n)
    ensures KeysIn(SavedFree(w, n + 1, leftover), n + 1)
  {
  }

  lemma LeftoverKeys(w: Work, leftover: Records, n: nat)
    requires LeftoverOk(w, leftover) && w.pglast <= n
    ensures KeysIn(leftover, n)
  {
  }

  lemma SavedIsSnapshot(d: Disk, w: Work, leftover: Records)
    requires DiskOk(d) && WorkOk(d, w) && LeftoverOk(w, leftover)
    ensures SnapshotOk(Snapshot(w.tree, SavedFree(w, Newest(d) + 1, leftover), w.next), Newest(d) + 1)
  {
    hide WorkOk, DiskOk, LeftoverOk, SavedFree, Partition, Newest, Accounts, Snap;
    WorkMeans(d, w);
    LeftoverKeys(w, leftover, Newest(d));
    SavedKeys(w, Newest(d), leftover);
    SavedPartition(w, Newest(d) + 1, leftover);
  }

  lemma SavedIsNext(d: Disk, w: Work, leftover: Records, free: Records)
    requires DiskOk(d) && WorkOk(d, w) && LeftoverOk(w, leftover)
    requires free == SavedFree(w, Newest(d) + 1, leftover)
    ensures NextSnapshot(d.snaps, d.lo, Newest(d), Snapshot(w.tree, free, w.next))
  {
    hide WorkOk, DiskOk, LeftoverOk, SavedFree, Newest, Unused, SnapshotOk, Snap;
    WorkMeans(d, w);
    SavedIsSnapshot(d, w, leftover);
    forall k | k in free ensures Unused(d.snaps, if k < d.lo then d.lo else k, Newest(d), free[k]) {
      SavedUnused(d, w, leftover, free, k);
    }
  }

  lemma UnchangedPagesInFile(d: Disk, w: Work)
    requires DiskOk(d) && WorkOk(d, w)
    ensures forall p :: p in w.tree && p !in w.dirty ==> p in d.content && d.content[p] == w.tree[p]
  {
    assert IntactTree(d.content, d.unsynced, Snap(d.snaps, Newest(d)).tree);
  }

  lemma SavedFinal(d: Disk, w: Work, leftover: Records)
    requires DiskOk(d) && WorkOk(d, w) && LeftoverOk(w, leftover)
    ensures FinalOk(d, w, Snapshot(w.tree, SavedFree(w, Newest(d) + 1, leftover), w.next))
  {
    SavedIsNext(d, w, leftover, SavedFree(w, Newest(d) + 1, leftover));
    UnchangedPagesInFile(d, w);
  }

  lemma FinalKeeps(s: State, fin: Snapshot)
    requires Inv(s) && s.writer.Some? && s.writer.value.phase == Active(NoScan)
    requires FinalOk(s.disk, s.writer.value.work, fin)
    ensures Inv(WithPhase(s, Saved(fin)))
  {
    hide FinalOk, DiskOk, WorkOk, TableOk, Newest;
  }

  lemma ActiveMeans(s: State)
    requires Inv(s) && s.writer.Some? && s.writer.value.phase.Active?
    ensures DiskOk(s.disk) && WorkOk(s.disk, s.writer.value.work) && s.writer.value.base == Newest(s.disk)
  {
    hide DiskOk, TableOk, WorkOk, ScanOk, Newest;
  }

  lemma SaveIs(s: State, leftover: Records)
    requires Enabled(s, Save(leftover)) && Newest(s.disk) in s.disk.snaps
    ensures s.writer.Some? && s.writer.value.phase == Active(NoScan) && LeftoverOk(s.writer.value.work, leftover)
    ensures var w := s.writer.value;
      Do(s, Save(leftover)) == WithPhase(s, Saved(Snapshot(w.work.tree, SavedFree(w.work, w.Id(), leftover), w.work.next)))
  {
    hide LeftoverOk, SavedFree, Newest;
  }

  lemma SaveKeeps(s: State, step: Step)
    requires Inv(s) && Enabled(s, step) && step.Save?
    ensures Inv(Do(s, step))
  {
    hide Inv, Enabled, Do, FinalOk, DiskOk, WorkOk, LeftoverOk, SavedFree, Newest;
    NewestThere(s);
    SaveIs(s, step.leftover);
    ActiveMeans(s);
    var w := s.writer.value;
    SavedFinal(s.disk, w.work, step.leftover);
    FinalKeeps(s, Snapshot(w.work.tree, SavedFree(w.work, w.Id(), step.leftover), w.work.next));
  }

  lemma NewestThere(s: State)
    requires Inv(s)
    ensures Newest(s.disk) in s.disk.snaps
  {
  }

  lemma SyncDataKeeps(s: State, step: Step)
    requires Inv(s) && Enabled(s, step) && step.SyncData?
    ensures Inv(Do(s, step))
  {
    var d' := Synchronised(s.disk);
    assert DiskOk(d');
  }

  lemma CommitRecords(snaps: map<nat, Snapshot>, lo: nat, n: nat, fin: Snapshot, b: nat, k: nat)
    requires HistoryOk(snaps, lo, n) && NextSnapshot(snaps, lo, n, fin)
    requires lo <= b <= n + 1 && k in Snap(snaps[n + 1 := fin], b).free
    ensures Unused(snaps[n + 1 := fin], if k < lo then lo else k, b, Snap(snaps[n + 1 := fin], b).free[k])
  {
    if b <= n {
      assert Unused(snaps, if k < lo then lo else k, b, Snap(snaps, b).free[k]);
    } else {
      assert Unused(snaps, if k < lo then lo else k, n, fin.free[k]);
    }
  }

  /** The history with one more snapshot. */
  lemma CommitHistory(snaps: map<nat, Snapshot>, lo: nat, n: nat, fin: Snapshot)
    requires HistoryOk(snaps, lo, n) && NextSnapshot(snaps, lo, n, fin)
    ensures HistoryOk(snaps[n + 1 := fin], lo, n + 1)
  {
    var snaps' := snaps[n + 1 := fin];
    assert forall u: nat :: u <= n ==> Snap(snaps', u) == Snap(snaps, u);
    assert Snap(snaps', n + 1) == fin;
    forall b: nat, k | lo <= b <= n + 1 && k in Snap(snaps', b).free
      ensures Unused(snaps', if k < lo then lo else k, b, Snap(snaps', b).free[k])
    {
      CommitRecords(snaps, lo, n, fin, b, k);
    }
  }

  lemma PutMetaKeeps(d: Disk, fin: Snapshot)
    requires DiskOk(d) && NextSnapshot(d.snaps, d.lo, Newest(d), fin)
    requires IntactTree(d.content, d.unsynced, fin.tree)
    ensures DiskOk(PutMeta(d, Newest(d) + 1, fin)) && Newest(PutMeta(d, Newest(d) + 1, fin)) == Newest(d) + 1
  {
    var n := Newest(d);
    CommitHistory(d.snaps, d.lo, n, fin);
    var d' := PutMeta(d, n + 1, fin);
    assert Newest(d') == n + 1 && MetaAt(d', n + 2) == n;
    forall u: nat | d'.lo <= u <= n + 1 ensures IntactTree(d'.content, d'.unsynced, Snap(d'.snaps, u).tree) {
      if u <= n { assert IntactTree(d.content, d.unsynced, Snap(d.snaps, u).tree); }
    }
  }

  lemma WriteMetaKeeps(s: State, step: Step)
    requires Inv(s) && Enabled(s, step) && step.WriteMeta?
    ensures Inv(Do(s, step))
  {
    PutMetaKeeps(s.disk, s.writer.value.phase.fin);
    var s' := Do(s, step);
    assert TableOk(s'.table, s'.disk.lo, Newest(s'.disk));
  }

  lemma EndKeeps(s: State, step: Step)
    requires Inv(s) && Enabled(s, step)
    requires step.SyncMeta? || step.PublishTxn? || step.Abort?
    ensures Inv(Do(s, step))
  {
  }

  lemma ShorterHistory(snaps: map<nat, Snapshot>, lo: nat, n: nat, m: nat)
    requires HistoryOk(snaps, lo, n) && lo <= m <= n
    ensures HistoryOk(snaps, lo, m)
  {
  }

  lemma CrashedDisk(d: Disk, fallback: bool, after: map<nat, int>)
    requires DiskOk(d) && CanCrash(d, fallback, after)
    ensures DiskOk(Crashed(d, fallback, after))
  {
    var d' := Crashed(d, fallback, after);
    assert d.lo <= Newest(d') <= Newest(d);
    ShorterHistory(d.snaps, d.lo, Newest(d), Newest(d'));
    forall u: nat | d'.lo <= u <= Newest(d') ensures IntactTree(d'.content, d'.unsynced, Snap(d'.snaps, u).tree) {
      assert IntactTree(d.content, d.unsynced, Snap(d.snaps, u).tree);
    }
  }

  lemma CrashKeeps(s: State, step: Step)
    requires Inv(s) && Enabled(s, step) && step.Crash?
    ensures Inv(Do(s, step))
  {
    CrashedDisk(s.disk, step.fallback, step.after);
  }

  // ----- Every run -----

  predicate ByWriter(step: Step) {
    step.WriterDoes? || step.ScanStart? || step.ScanPid? || step.ScanTxnid? || step.ScanEnd? ||
    step.Flush? || step.Save? || step.SyncData? || step.WriteMeta?
  }

  lemma WriterStepKeeps(s: State, step: Step)
    requires Inv(s) && Enabled(s, step) && ByWriter(step)
    ensures Inv(Do(s, step))
  {
    if step.WriterDoes? {
      WorkKeeps(s, step);
    } else if step.Flush? {
      FlushKeeps(s, step);
    } else if step.Save? {
      SaveKeeps(s, step);
    } else {
      CommitStepKeeps(s, step);
    }
  }

  lemma CommitStepKeeps(s: State, step: Step)
    requires Inv(s) && Enabled(s, step) && ByWriter(step)
    requires !step.WriterDoes? && !step.Flush? && !step.Save?
    ensures Inv(Do(s, step))
  {
    if step.SyncData? {
      SyncDataKeeps(s, step);
    } else if step.WriteMeta? {
      WriteMetaKeeps(s, step);
    } else {
      ScanKeeps(s, step);
    }
  }

  lemma StepKeeps(s: State, step: Step)
    requires Inv(s) && Enabled(s, step)
    ensures Inv(Do(s, step))
  {
    hide Do, Enabled, Inv, Newest;
    if ByWriter(step) {
      WriterStepKeeps(s, step);
    } else if step.ReaderDoes? {
      ReaderKeeps(s, step);
    } else if step.Kill? {
      KillKeeps(s, step);
    } else if step.Begin? {
      BeginKeeps(s, step);
    } else if step.Crash? {
      CrashKeeps(s, step);
    } else {
      EndKeeps(s, step);
    }
  }

  lemma InitHolds(s: State)
    requires Init(s)
    ensures Inv(s)
  {
  }

  /** A run: every state follows from the one before by some step. */
  ghost predicate IsRun(run: seq<State>) {
    && run != [] && Init(run[0])
    && forall i :: 0 < i < |run| ==> Next(run[i - 1], run[i])
  }

  lemma {:induction false} RunKeeps(run: seq<State>, i: nat)
    requires IsRun(run) && i < |run|
    ensures Inv(run[i])
  {
    if i == 0 {
      InitHolds(run[0]);
    } else {
      RunKeeps(run, i - 1);
      assert Next(run[i - 1], run[i]);
      var step :| Took(run[i - 1], step, run[i]);
      StepKeeps(run[i - 1], step);
    }
  }

  // ----- The main results -----

  /** The pages a step of the writer takes for new contents. */
  ghost function HandedOut(w: Work, a: WorkStep): set<nat> {
    match a
    case AllocLoose(q, c) => {q}
    case AllocRun(q, cs) => Run(q, |cs|)
    case AllocNew(cs) => Run(w.next, |cs|)
    case Write(q, c) => {q}
    case _ => {}
  }

  /** The snapshot a registered reader uses, or is about to find in its meta page. */
  function UsedBy(d: Disk, r: Reader): Option<nat> {
    match r
    case Reading(_, a) => Some(a)
    case Registered(v) => Some(MetaAt(d, v))
    case _ => None
  }

  lemma UsedIsWanted(s: State, j: nat)
    requires Inv(s) && j < |s.table.slots| && UsedBy(s.disk, s.table.slots[j].reader).Some?
    ensures s.disk.lo <= UsedBy(s.disk, s.table.slots[j].reader).value <= Newest(s.disk)
  {
    assert SlotOk(s.table.slots[j], s.disk.lo, s.table.pub, Newest(s.disk));
    if s.table.slots[j].reader.Registered? { MetaIsWanted(s.disk, s.table.slots[j].reader.s); }
  }

  /** A page handed out is in no snapshot that a registered reader uses or is about to use, nor in the
    * newest one. */
  lemma NeverHandedOut(run: seq<State>, i: nat, a: WorkStep)
    requires IsRun(run) && i < |run| && Enabled(run[i], WriterDoes(a))
    ensures var s := run[i]; var taken := HandedOut(s.writer.value.work, a);
      && taken !! Snap(s.disk.snaps, Newest(s.disk)).tree.Keys
      && forall j :: 0 <= j < |s.table.slots| && UsedBy(s.disk, s.table.slots[j].reader).Some? ==>
           taken !! Snap(s.disk.snaps, UsedBy(s.disk, s.table.slots[j].reader).value).tree.Keys
  {
    RunKeeps(run, i);
    var s := run[i];
    hide Inv, UsedBy;
    forall j | 0 <= j < |s.table.slots| && UsedBy(s.disk, s.table.slots[j].reader).Some?
      ensures s.disk.lo <= UsedBy(s.disk, s.table.slots[j].reader).value <= Newest(s.disk)
    {
      UsedIsWanted(s, j);
    }
    HandedOutUnused(s, a);
  }

  lemma HandedOutUnused(s: State, a: WorkStep)
    requires Inv(s) && Enabled(s, WriterDoes(a))
    ensures Unused(s.disk.snaps, s.disk.lo, Newest(s.disk), HandedOut(s.writer.value.work, a)) && s.disk.lo <= Newest(s.disk)
  {
    hide DiskOk, WorkOk, TableOk, Newest, Unused, HandedOut;
    ActiveMeans(s);
    TakenUnused(s.disk, s.writer.value.work, Oldest(s.table, s.writer.value.proc), a);
  }

  lemma TakenUnused(d: Disk, w: Work, oldest: nat, a: WorkStep)
    requires DiskOk(d) && WorkOk(d, w) && WorkCan(w, oldest, a)
    ensures Unused(d.snaps, d.lo, Newest(d), HandedOut(w, a)) && d.lo <= Newest(d)
  {
    hide Partition, FlushedOk, MetaOk, Intact, Newest, Snap, SnapshotOk;
    if a.AllocNew? { NewPagesUnused(d, w, |a.cs|); }
  }

  /** What a reader reads is what its snapshot was committed with. */
  lemma ReadersSeeTheirSnapshot(run: seq<State>, i: nat, j: nat)
    requires IsRun(run) && i < |run| && j < |run[i].table.slots| && run[i].table.slots[j].reader.Reading?
    ensures var s := run[i]; var a := s.table.slots[j].reader.a;
      && a in s.disk.snaps
      && forall p :: p in s.disk.snaps[a].tree ==> p in s.disk.content && s.disk.content[p] == s.disk.snaps[a].tree[p]
  {
    RunKeeps(run, i);
    var s := run[i];
    assert SlotOk(s.table.slots[j], s.disk.lo, s.table.pub, Newest(s.disk));
    assert IntactTree(s.disk.content, s.disk.unsynced, Snap(s.disk.snaps, s.table.slots[j].reader.a).tree);
  }

  ghost predicate StepsSoftly(s: State, s': State) {
    exists step: Step :: Took(s, step, s') && !step.Crash?
  }

  /** Reader j stays in one read transaction from state i through state k, with no crash between. */
  ghost predicate StaysReading(run: seq<State>, i: nat, k: nat, j: nat) {
    && i <= k < |run|
    && (forall m :: i <= m <= k ==> j < |run[m].table.slots| && run[m].table.slots[j].reader.Reading?)
    && (forall m :: i <= m <= k ==> run[m].table.slots[j].reader == run[i].table.slots[j].reader)
    && (forall m :: i < m <= k ==> StepsSoftly(run[m - 1], run[m]))
  }

  lemma OldSnapshotsStay(s: State, step: Step, u: nat)
    requires Inv(s) && Enabled(s, step) && !step.Crash? && u <= Newest(s.disk)
    ensures Snap(Do(s, step).disk.snaps, u) == Snap(s.disk.snaps, u) && u <= Newest(Do(s, step).disk)
  {
  }

  lemma {:induction false} SnapshotStays(run: seq<State>, i: nat, k: nat, j: nat)
    requires IsRun(run) && StaysReading(run, i, k, j)
    ensures var a := run[i].table.slots[j].reader.a;
      Snap(run[k].disk.snaps, a) == Snap(run[i].disk.snaps, a) && a <= Newest(run[k].disk)
    decreases k
  {
    RunKeeps(run, k);
    assert SlotOk(run[k].table.slots[j], run[k].disk.lo, run[k].table.pub, Newest(run[k].disk));
    if i < k {
      SnapshotStays(run, i, k - 1, j);
      RunKeeps(run, k - 1);
      assert StepsSoftly(run[k - 1], run[k]);
      var step: Step :| Took(run[k - 1], step, run[k]) && !step.Crash?;
      OldSnapshotsStay(run[k - 1], step, run[i].table.slots[j].reader.a);
    }
  }

  /** Reads repeat: a page of its snapshot has the same contents whenever the reader looks. */
  lemma ReadsRepeat(run: seq<State>, i: nat, k: nat, j: nat, p: nat)
    requires IsRun(run) && StaysReading(run, i, k, j)
    requires p in Snap(run[i].disk.snaps, run[i].table.slots[j].reader.a).tree
    ensures p in run[i].disk.content && p in run[k].disk.content && run[i].disk.content[p] == run[k].disk.content[p]
  {
    SnapshotStays(run, i, k, j);
    ReadersSeeTheirSnapshot(run, i, j);
    ReadersSeeTheirSnapshot(run, k, j);
  }

  /** me_pgoldest, in every process, is never above the id of a live reader. */
  lemma OldestIsLowerBound(run: seq<State>, i: nat, p: nat, j: nat)
    requires IsRun(run) && i < |run| && j < |run[i].table.slots| && Live(run[i].table.slots[j])
    ensures Oldest(run[i].table, p) <= run[i].table.slots[j].reader.s
  {
    RunKeeps(run, i);
  }

  /** After a crash in any state the file holds, complete, the newest snapshot whose meta page was
    * durable, or the one after it if its meta page happened to reach the disk. */
  lemma CrashReopens(run: seq<State>, i: nat, fallback: bool, after: map<nat, int>)
    requires IsRun(run) && i < |run| && CanCrash(run[i].disk, fallback, after)
    ensures var d := run[i].disk; var m := Newest(Crashed(d, fallback, after));
      && (m == Newest(d) || (!d.metaDurable && m == Newest(d) - 1))
      && m in d.snaps
      && forall p :: p in d.snaps[m].tree ==> p in after && after[p] == d.snaps[m].tree[p]
  {
    RunKeeps(run, i);
    var d := run[i].disk;
    var m := Newest(Crashed(d, fallback, after));
    assert IntactTree(d.content, d.unsynced, Snap(d.snaps, m).tree);
  }

  /** The newest transaction that no crash can lose. */
  function Durable(d: Disk): int { if d.metaDurable then Newest(d) else Newest(d) - 1 }

  /** Once durable, always durable, whatever happens. */
  lemma DurableGrows(s: State, step: Step)
    requires Inv(s) && Enabled(s, step)
    ensures Durable(s.disk) <= Durable(Do(s, step).disk) <= Newest(Do(s, step).disk)
  {
    hide TableOk, HistoryOk, Intact, ScanOk, WorkOk, FinalOk, NextSnapshot, IntactTree;
  }

  lemma {:induction false} DurableStays(run: seq<State>, i: nat, k: nat)
    requires IsRun(run) && i <= k < |run|
    ensures Durable(run[i].disk) <= Durable(run[k].disk)
    decreases k
  {
    hide Inv, Enabled, Do, Durable, Newest, Init;
    if i < k {
      DurableStays(run, i, k - 1);
      RunKeeps(run, k - 1);
      assert Next(run[k - 1], run[k]);
      var step :| Took(run[k - 1], step, run[k]);
      DurableGrows(run[k - 1], step);
    }
  }

  /** A transaction that mdb_txn_commit reported as committed is never lost: in every later state,
    * crashes included, the newest snapshot is at least as new. */
  lemma CommitsSurvive(run: seq<State>, i: nat, k: nat)
    requires IsRun(run) && 0 < i <= k < |run|
    requires Took(run[i - 1], PublishTxn, run[i])
    ensures run[i - 1].writer.value.Id() <= Newest(run[k].disk)
  {
    hide Inv, Init, Next;
    RunKeeps(run, i - 1);
    PublishedIsDurable(run[i - 1], run[i]);
    DurableStays(run, i, k);
    DurableIsThere(run[k].disk);
  }

  lemma PublishedIsDurable(s: State, s': State)
    requires Inv(s) && Took(s, PublishTxn, s')
    ensures s.writer.Some? && s.writer.value.Id() == Durable(s'.disk)
  {
    hide DiskOk, TableOk, ScanOk, WorkOk, FinalOk, NextSnapshot, Newest;
  }

  lemma DurableIsThere(d: Disk)
    ensures Durable(d) <= Newest(d)
  {
  }

  lemma NewestOk(run: seq<State>, i: nat)
    requires IsRun(run) && i < |run|
    ensures var n := Newest(run[i].disk); n in run[i].disk.snaps && SnapshotOk(Snap(run[i].disk.snaps, n), n)
  {
    RunKeeps(run, i);
  }

  /** Every page from 2 up to the last is in the tree of the newest snapshot or in one of its free
    * records, and in only one place; the same holds of the lists of a running transaction. */
  lemma PagesConserved(run: seq<State>, i: nat)
    requires IsRun(run) && i < |run|
    ensures var d := run[i].disk; var n := Newest(d);
      && n in d.snaps && Partition(d.snaps[n].tree, d.snaps[n].free, {}, d.snaps[n].next)
      && (run[i].writer.Some? && run[i].writer.value.phase.Active? ==> Accounts(run[i].writer.value.work))
  {
    RunKeeps(run, i);
    var n := Newest(run[i].disk);
    assert SnapshotOk(Snap(run[i].disk.snaps, n), n);
  }

  /** The snapshot before the newest one is still wanted: no record under its key has been reclaimed. */
  predicate PreviousWanted(d: Disk) { Newest(d) > 0 ==> d.lo < Newest(d) }

  /** A crash falls back to the older meta page after a record under its key was reclaimed by a later
    * transaction. */
  predicate LateFallback(d: Disk, step: Step) { step.Crash? && step.fallback && d.lo + 1 == Newest(d) && Newest(d) > 1 }

  lemma PreviousStep(s: State, step: Step)
    requires Inv(s) && Enabled(s, step) && PreviousWanted(s.disk)
    ensures PreviousWanted(Do(s, step).disk) <==> !LateFallback(s.disk, step)
  {
  }

  /** Nothing in a run but a late fallback ends it. */
  lemma PreviousStaysWanted(run: seq<State>, i: nat, step: Step)
    requires IsRun(run) && i + 1 < |run| && Took(run[i], step, run[i + 1]) && PreviousWanted(run[i].disk)
    ensures PreviousWanted(run[i + 1].disk) <==> !LateFallback(run[i].disk, step)
  {
    hide Inv, Enabled, Do, PreviousWanted, LateFallback, Newest, Init;
    RunKeeps(run, i);
    PreviousStep(run[i], step);
  }

  ghost predicate StepsInTime(s: State, s': State) { exists step: Step :: Took(s, step, s') && !LateFallback(s.disk, step) }

  lemma FirstIsWanted(s: State)
    requires Init(s)
    ensures PreviousWanted(s.disk)
  {
  }

  lemma {:induction false} PreviousIsWanted(run: seq<State>, i: nat)
    requires IsRun(run) && i < |run| && forall j :: 0 < j <= i ==> StepsInTime(run[j - 1], run[j])
    ensures PreviousWanted(run[i].disk)
  {
    hide Inv, Enabled, Do, Next, LateFallback, Newest, PreviousWanted;
    if i == 0 {
      FirstIsWanted(run[0]);
    } else {
      PreviousIsWanted(run, i - 1);
      assert StepsInTime(run[i - 1], run[i]);
      var step: Step :| Took(run[i - 1], step, run[i]) && !LateFallback(run[i - 1].disk, step);
      PreviousStaysWanted(run, i - 1, step);
    }
  }

  /** Transaction N overwrites no page of snapshots N-1 and N-2 before its meta page is written: all pages of
    * the newest snapshot are durable, and those of the one before it if it is still wanted. */
  lemma TwoSnapshotsKept(run: seq<State>, i: nat)
    requires IsRun(run) && i < |run|
    ensures var d := run[i].disk;
      && IntactTree(d.content, d.unsynced, Snap(d.snaps, Newest(d)).tree)
      && (Newest(d) > 0 && PreviousWanted(d) ==> IntactTree(d.content, d.unsynced, Snap(d.snaps, Newest(d) - 1).tree))
  {
    RunKeeps(run, i);
  }
}
