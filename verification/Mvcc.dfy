/** Readers, the single writer, page reclaiming and crashes, as one state machine.
  *
  * Shared variables are read and written one at a time, in any interleaving: a reader
  * loads the published transaction id, stores it in its slot and reads the id again;
  * the writer walks the reader table slot by slot, looking at the process id and at the
  * transaction id of a slot in two separate steps.  Page contents are arbitrary integers.
  * A crash leaves arbitrary contents in every page written since the last sync.
  */
module Mvcc {
  datatype Option<+T> = None | Some(value: T)

  type Records = map<nat, set<nat>>

  /** What one meta page describes: every page reachable from its roots, with the page's
    * contents; the records of the free database; and the first unused page number. */
  datatype Snapshot = Snapshot(tree: map<nat, int>, free: Records, next: nat)

  // ----- The reader table -----

  /** Where a reader thread is.  `Reading(s, a)` is registered at `s` and uses the snapshot
    * `a` it found in meta page s % 2, which may be newer than `s`. */
  datatype Reader =
    | Unclaimed
    | Claiming(p: nat)
    | Idle
    | Retry
    | Loaded(v: nat)
    | Stored(v: nat)
    | Registered(s: nat)
    | Reading(s: nat, a: nat)
    | Dead

  datatype Slot = Slot(pid: nat, txnid: Option<nat>, reader: Reader)

  /** The lock file: the slots in use, the published transaction id (mti_txnid), and the
    * me_pgoldest that each process keeps for itself. */
  datatype Table = Table(slots: seq<Slot>, maxReaders: nat, pub: nat, oldest: map<nat, nat>)

  datatype ReaderStep =
    | ClaimSlot(p: nat)
    | PublishSlot
    | LoadTxnid
    | StoreTxnid
    | CheckTxnid
    | CopyMeta
    | EndRead
    | ReleaseSlot
    | Sweep

  predicate NoClaim(t: Table) { forall i :: 0 <= i < |t.slots| ==> !t.slots[i].reader.Claiming? }

  /** mdb_txn_renew0 takes the first slot without a process id, under the reader mutex. */
  predicate FirstFree(t: Table, j: nat) {
    && NoClaim(t)
    && j <= |t.slots|
    && (forall i :: 0 <= i < j ==> t.slots[i].pid != 0)
    && (if j < |t.slots| then t.slots[j].pid == 0 else j < t.maxReaders)
  }

  predicate ReaderCan(t: Table, j: nat, step: ReaderStep) {
    if step.ClaimSlot? then step.p != 0 && FirstFree(t, j)
    else
      && j < |t.slots|
      && var r := t.slots[j].reader;
         match step
         case PublishSlot => r.Claiming? && r.p != 0
         case LoadTxnid => r.Idle? || r.Retry?
         case StoreTxnid => r.Loaded?
         case CheckTxnid => r.Stored?
         case CopyMeta => r.Registered?
         case EndRead => r.Registered? || r.Reading?
         case ReleaseSlot => r.Idle?
         case Sweep => r.Dead?
  }

  /** The slot after its owner's (or the sweeper's) step; `inMeta` is the transaction id in the
    * meta page the reader looks at. */
  function NewSlot(t: Table, j: nat, step: ReaderStep, inMeta: nat): Slot
    requires ReaderCan(t, j, step)
  {
    match step
    case ClaimSlot(p) => Slot(0, None, Claiming(p))
    case PublishSlot => Slot(t.slots[j].reader.p, None, Idle)
    case LoadTxnid => t.slots[j].(reader := Loaded(t.pub))
    case StoreTxnid => t.slots[j].(txnid := Some(t.slots[j].reader.v), reader := Stored(t.slots[j].reader.v))
    case CheckTxnid =>
      var v := t.slots[j].reader.v;
      t.slots[j].(reader := if v == t.pub then Registered(v) else Retry)
    case CopyMeta => t.slots[j].(reader := Reading(t.slots[j].reader.s, inMeta))
    case EndRead => t.slots[j].(txnid := None, reader := Idle)
    case ReleaseSlot => t.slots[j].(pid := 0, reader := Unclaimed)
    case Sweep => t.slots[j].(pid := 0, reader := Unclaimed)
  }

  function PutSlot(t: Table, j: nat, x: Slot): Table
    requires j <= |t.slots|
  {
    if j < |t.slots| then t.(slots := t.slots[j := x]) else t.(slots := t.slots + [x])
  }

  /** The owner process dies: its readers stop, its slots stay as they are. */
  function KillSlot(x: Slot, p: nat): Slot {
    if x.pid == p then x.(reader := Dead)
    else if x.reader == Claiming(p) then x.(reader := Unclaimed)
    else x
  }

  function KillAll(slots: seq<Slot>, p: nat): (r: seq<Slot>)
    ensures |r| == |slots| && forall i :: 0 <= i < |r| ==> r[i] == KillSlot(slots[i], p)
  { seq(|slots|, i requires 0 <= i < |slots| => KillSlot(slots[i], p)) }

  function KillTable(t: Table, p: nat): Table {
    t.(slots := KillAll(t.slots, p), oldest := t.oldest - {p})
  }

  // ----- The file -----

  /** `snaps` and `lo` are history: every snapshot committed, and the highest key of a free
    * record ever reclaimed. */
  datatype Disk = Disk(meta0: nat, meta1: nat, metaDurable: bool,
                       content: map<nat, int>, unsynced: set<nat>,
                       snaps: map<nat, Snapshot>, lo: nat)

  function Newest(d: Disk): nat { if d.meta0 < d.meta1 then d.meta1 else d.meta0 }

  function MetaAt(d: Disk, i: nat): nat { if i % 2 == 0 then d.meta0 else d.meta1 }

  function Put(d: Disk, q: nat, c: int): Disk {
    d.(content := d.content[q := c], unsynced := d.unsynced + {q})
  }

  function Synchronised(d: Disk): Disk { d.(unsynced := {}, metaDurable := true) }

  function PutMeta(d: Disk, id: nat, fin: Snapshot): Disk {
    d.(meta0 := if id % 2 == 0 then id else d.meta0, meta1 := if id % 2 == 0 then d.meta1 else id,
       metaDurable := false, snaps := d.snaps[id := fin])
  }

  /** What a crash can leave: unsynced pages arbitrary, an unsynced meta page lost or kept. */
  ghost predicate CanCrash(d: Disk, fallback: bool, after: map<nat, int>) {
    && (fallback ==> !d.metaDurable && Newest(d) > 0)
    && (forall p :: p in d.content && p !in d.unsynced ==> p in after && after[p] == d.content[p])
  }

  function Crashed(d: Disk, fallback: bool, after: map<nat, int>): Disk
    requires fallback ==> Newest(d) > 0
  {
    var m := if fallback then Newest(d) - 1 else Newest(d);
    var other := if m == 0 then 0 else m - 1;
    d.(meta0 := if m % 2 == 0 then m else other, meta1 := if m % 2 == 0 then other else m,
       metaDurable := true, content := after, unsynced := {})
  }

  // ----- The writer -----

  /** The writer's walk over the reader table, from the last slot down to slot 0. */
  datatype Scan = NoScan | At(i: nat, acc: nat) | Seen(i: nat, acc: nat)

  /** Page lists of a write transaction.  `recs` are the free records above pglast; `own` are the
    * pages allocated by this transaction, `dirty` those of them not written to the file. */
  datatype Work = Work(tree: map<nat, int>, own: set<nat>, dirty: set<nat>,
                       recs: Records, pghead: set<nat>, pglast: nat,
                       freePgs: set<nat>, loose: set<nat>, next: nat)

  datatype Phase = Active(scan: Scan) | Saved(fin: Snapshot) | Synced(fin: Snapshot) | Written

  datatype Writer = Writer(proc: nat, base: nat, phase: Phase, work: Work) {
    function Id(): nat { base + 1 }
  }

  datatype WorkStep =
    | Fetch(k: nat)
    | AllocLoose(q: nat, c: int)
    | AllocRun(q: nat, cs: seq<int>)
    | AllocNew(cs: seq<int>)
    | Write(q: nat, c: int)
    | FreePage(q: nat)
    | Loosen(q: nat)
    | FreeOverflow(q: nat, n: nat)
    | Unspill(q: nat)

  /** The n consecutive page numbers from q. */
  function Run(q: nat, n: nat): (r: set<nat>)
    ensures forall p :: p in r <==> q <= p < q + n
  { if n == 0 then {} else Run(q, n - 1) + {q + n - 1} }

  function RunContent(q: nat, cs: seq<int>): (m: map<nat, int>)
    ensures m.Keys == Run(q, |cs|)
  { if cs == [] then map[] else RunContent(q, cs[..|cs| - 1])[q + |cs| - 1 := cs[|cs| - 1]] }

  function Drop(tree: map<nat, int>, gone: set<nat>): map<nat, int> {
    map p | p in tree && p !in gone :: tree[p]
  }

  function Without(recs: Records, k: nat): Records { map l | l in recs && l != k :: recs[l] }

  /** `oldest` is the process's cached id of the oldest reader. */
  predicate WorkCan(w: Work, oldest: nat, step: WorkStep) {
    match step
    case Fetch(k) => k in w.recs && (forall l :: l in w.recs ==> k <= l) && k < oldest
    case AllocLoose(q, c) => q in w.loose
    case AllocRun(q, cs) => |cs| > 0 && Run(q, |cs|) <= w.pghead
    case AllocNew(cs) => |cs| > 0
    case Write(q, c) => q in w.dirty && q in w.tree
    case FreePage(q) => q in w.tree
    case Loosen(q) => q in w.tree && q in w.dirty
    case FreeOverflow(q, n) => w.pglast > 0 && Run(q, n) <= w.tree.Keys && Run(q, n) <= w.own
    case Unspill(q) => q in w.own && q in w.tree
  }

  function DoWork(w: Work, oldest: nat, step: WorkStep): Work
    requires WorkCan(w, oldest, step)
  {
    match step
    case Fetch(k) => w.(recs := Without(w.recs, k), pghead := w.pghead + w.recs[k], pglast := k)
    case AllocLoose(q, c) => w.(loose := w.loose - {q}, tree := w.tree[q := c])
    case AllocRun(q, cs) =>
      w.(pghead := w.pghead - Run(q, |cs|), tree := w.tree + RunContent(q, cs),
         own := w.own + Run(q, |cs|), dirty := w.dirty + Run(q, |cs|))
    case AllocNew(cs) =>
      w.(next := w.next + |cs|, tree := w.tree + RunContent(w.next, cs),
         own := w.own + Run(w.next, |cs|), dirty := w.dirty + Run(w.next, |cs|))
    case Write(q, c) => w.(tree := w.tree[q := c])
    case FreePage(q) => w.(tree := Drop(w.tree, {q}), freePgs := w.freePgs + {q})
    case Loosen(q) => w.(tree := Drop(w.tree, {q}), loose := w.loose + {q})
    case FreeOverflow(q, n) =>
      w.(tree := Drop(w.tree, Run(q, n)), dirty := w.dirty - Run(q, n), pghead := w.pghead + Run(q, n))
    case Unspill(q) => w.(dirty := w.dirty + {q})
  }

  function StartWork(base: Snapshot): Work {
    Work(base.tree, {}, {}, base.free, {}, 0, {}, {}, base.next)
  }

  /** The union of all pages listed by the records. */
  ghost predicate Listed(recs: Records, p: nat) { exists k :: k in recs && p in recs[k] }

  ghost predicate RecordsDisjoint(recs: Records) {
    forall k, l :: k in recs && l in recs && k != l ==> recs[k] !! recs[l]
  }

  /** How the leftover of me_pghead may be re-saved: under keys 1..pglast, each page once. */
  ghost predicate LeftoverOk(w: Work, leftover: Records) {
    && (forall k :: k in leftover ==> 1 <= k <= w.pglast)
    && RecordsDisjoint(leftover)
    && (forall p: nat {:trigger Listed(leftover, p)} :: Listed(leftover, p) <==> w.pglast > 0 && (p in w.pghead || p in w.loose))
  }

  /** The pages a new snapshot lists as freed by its own transaction. */
  function Freed(w: Work): set<nat> {
    if w.pglast == 0 then w.freePgs + w.loose else w.freePgs
  }

  /** The free database as mdb_freelist_save leaves it. */
  function SavedFree(w: Work, id: nat, leftover: Records): Records {
    if Freed(w) == {} then w.recs + leftover else (w.recs + leftover)[id := Freed(w)]
  }

  // ----- The whole system -----

  datatype State = State(table: Table, disk: Disk, orphan: bool, writer: Option<Writer>)

  datatype Step =
    | ReaderDoes(j: nat, r: ReaderStep)
    | Kill(p: nat)
    | Begin(p: nat)
    | WriterDoes(w: WorkStep)
    | ScanStart
    | ScanPid
    | ScanTxnid
    | ScanEnd
    | Flush(q: nat, c: int)
    | Save(leftover: Records)
    | SyncData
    | WriteMeta
    | SyncMeta
    | PublishTxn
    | Abort
    | Crash(fallback: bool, after: map<nat, int>)

  predicate InPhase(s: State, p: Phase -> bool) { s.writer.Some? && p(s.writer.value.phase) }

  function Oldest(t: Table, p: nat): nat { if p in t.oldest then t.oldest[p] else 0 }

  function CurrentScan(s: State): Scan {
    if s.writer.Some? && s.writer.value.phase.Active? then s.writer.value.phase.scan else NoScan
  }

  ghost predicate Enabled(s: State, step: Step) {
    match step
    case ReaderDoes(j, r) => ReaderCan(s.table, j, r)
    case Kill(p) => p != 0
    case Begin(p) => p != 0 && s.writer.None?
    case WriterDoes(a) => InPhase(s, (p: Phase) => p.Active?)
        && WorkCan(s.writer.value.work, Oldest(s.table, s.writer.value.proc), a)
    case ScanStart => InPhase(s, (p: Phase) => p == Active(NoScan))
    case ScanPid => CurrentScan(s).At? && 0 < CurrentScan(s).i <= |s.table.slots|
    case ScanTxnid => CurrentScan(s).Seen? && CurrentScan(s).i < |s.table.slots|
    case ScanEnd => CurrentScan(s).At? && CurrentScan(s).i == 0
    case Flush(q, c) => InPhase(s, (p: Phase) => p.Active? || p.Saved?)
        && var w := s.writer.value.work;
           q in w.dirty && q !in w.loose && (q in w.tree ==> c == w.tree[q])
    case Save(leftover) => InPhase(s, (p: Phase) => p == Active(NoScan))
        && LeftoverOk(s.writer.value.work, leftover)
    case SyncData => InPhase(s, (p: Phase) => p.Saved?)
        && s.writer.value.work.dirty !! s.writer.value.work.tree.Keys
    case WriteMeta => InPhase(s, (p: Phase) => p.Synced?)
    case SyncMeta => InPhase(s, (p: Phase) => p.Written?)
    case PublishTxn => InPhase(s, (p: Phase) => p.Written?) && s.disk.metaDurable
    case Abort => InPhase(s, (p: Phase) => !p.Written?)
    case Crash(fallback, after) => CanCrash(s.disk, fallback, after)
  }

  function WithPhase(s: State, p: Phase): State
    requires s.writer.Some?
  { s.(writer := Some(s.writer.value.(phase := p))) }

  function WithWork(s: State, w: Work): State
    requires s.writer.Some?
  { s.(writer := Some(s.writer.value.(work := w))) }

  function RaiseLo(d: Disk, a: WorkStep): Disk {
    if a.Fetch? && d.lo < a.k then d.(lo := a.k) else d
  }

  function Recovered(s: State): nat { if s.orphan then Newest(s.disk) else s.table.pub }

  ghost function Do(s: State, step: Step): State
    requires Enabled(s, step) && Newest(s.disk) in s.disk.snaps
  {
    match step
    case ReaderDoes(j, r) =>
      s.(table := PutSlot(s.table, j, NewSlot(s.table, j, r, InMeta(s, j, r))))
    case Kill(p) =>
      var hit := s.writer.Some? && s.writer.value.proc == p;
      s.(table := KillTable(s.table, p), orphan := s.orphan || hit, writer := if hit then None else s.writer)
    case Begin(p) =>
      var pub := Recovered(s);
      s.(table := s.table.(pub := pub), orphan := false,
         writer := Some(Writer(p, pub, Active(NoScan), StartWork(s.disk.snaps[Newest(s.disk)]))))
    case WriterDoes(a) =>
      var w := s.writer.value;
      WithWork(s, DoWork(w.work, Oldest(s.table, w.proc), a)).(disk := RaiseLo(s.disk, a))
    case ScanStart => WithPhase(s, Active(At(|s.table.slots|, s.writer.value.base)))
    case ScanPid =>
      var sc := CurrentScan(s);
      WithPhase(s, Active(if s.table.slots[sc.i - 1].pid == 0 then At(sc.i - 1, sc.acc) else Seen(sc.i - 1, sc.acc)))
    case ScanTxnid =>
      var sc := CurrentScan(s);
      var mr := s.table.slots[sc.i].txnid;
      WithPhase(s, Active(At(sc.i, if mr.Some? && mr.value < sc.acc then mr.value else sc.acc)))
    case ScanEnd =>
      WithPhase(s, Active(NoScan))
      .(table := s.table.(oldest := s.table.oldest[s.writer.value.proc := CurrentScan(s).acc]))
    case Flush(q, c) =>
      var w := s.writer.value.work;
      WithWork(s, w.(dirty := w.dirty - {q})).(disk := Put(s.disk, q, c))
    case Save(leftover) =>
      var w := s.writer.value;
      WithPhase(s, Saved(Snapshot(w.work.tree, SavedFree(w.work, w.Id(), leftover), w.work.next)))
    case SyncData => WithPhase(s, Synced(s.writer.value.phase.fin)).(disk := Synchronised(s.disk))
    case WriteMeta =>
      WithPhase(s, Written).(disk := PutMeta(s.disk, s.writer.value.Id(), s.writer.value.phase.fin))
    case SyncMeta => s.(disk := s.disk.(metaDurable := true))
    case PublishTxn => s.(table := s.table.(pub := s.writer.value.Id()), writer := None)
    case Abort => s.(writer := None)
    case Crash(fallback, after) =>
      var d := Crashed(s.disk, fallback, after);
      State(Table([], s.table.maxReaders, Newest(d), map[]), d, false, None)
  }

  /** The id of the snapshot in the meta page that reader j looks at. */
  function InMeta(s: State, j: nat, r: ReaderStep): nat
    requires ReaderCan(s.table, j, r)
  {
    if r.CopyMeta? then MetaAt(s.disk, s.table.slots[j].reader.s) else 0
  }

  ghost predicate Took(s: State, step: Step, s': State) {
    Enabled(s, step) && Newest(s.disk) in s.disk.snaps && s' == Do(s, step)
  }

  ghost predicate Next(s: State, s': State) { exists step :: Took(s, step, s') }

  /** A freshly created environment: two meta pages of transaction 0, nothing allocated. */
  ghost predicate Init(s: State) {
    && s.table.slots == [] && s.table.pub == 0 && s.table.oldest == map[]
    && !s.orphan && s.writer.None?
    && s.disk.meta0 == 0 && s.disk.meta1 == 0 && s.disk.metaDurable
    && s.disk.unsynced == {} && s.disk.lo == 0
    && s.disk.snaps == map[0 := Snapshot(map[], map[], 2)]
  }
}
