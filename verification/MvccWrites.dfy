/** What a committed snapshot holds: on every page what its transaction last wrote there, or else what the
  * snapshot it began from held. */
module MvccWrites {
  import opened Mvcc
  import opened MvccSafety

  function Look(m: map<nat, int>, q: nat): Option<int> { if q in m then Some(m[q]) else None }

  /** What a step of the writer puts on page q. */
  function PutsAt(w: Work, a: WorkStep, q: nat): Option<int> {
    match a
    case Write(p, c) => if q == p then Some(c) else None
    case AllocLoose(p, c) => if q == p then Some(c) else None
    case AllocRun(p, cs) => if p <= q < p + |cs| then Some(cs[q - p]) else None
    case AllocNew(cs) => if w.next <= q < w.next + |cs| then Some(cs[q - w.next]) else None
    case _ => None
  }

  /** The pages that a step takes out of the tree. */
  predicate Removes(a: WorkStep, q: nat) {
    match a
    case FreePage(p) => q == p
    case Loosen(p) => q == p
    case FreeOverflow(p, n) => p <= q < p + n
    case _ => false
  }

  function After(o: Option<int>, w: Work, a: WorkStep, q: nat): Option<int> {
    if PutsAt(w, a, q).Some? then PutsAt(w, a, q) else if Removes(a, q) then None else o
  }

  lemma {:induction false} RunHolds(p: nat, cs: seq<int>, q: nat)
    ensures Look(RunContent(p, cs), q) == if p <= q < p + |cs| then Some(cs[q - p]) else None
  {
    if cs != [] { RunHolds(p, cs[..|cs| - 1], q); }
  }

  /** One step of the writer: a page holds what is put on it, and the others are as they were. */
  lemma WorkWrites(w: Work, oldest: nat, a: WorkStep, q: nat)
    requires WorkCan(w, oldest, a)
    ensures Look(DoWork(w, oldest, a).tree, q) == After(Look(w.tree, q), w, a, q)
  {
    match a {
      case AllocRun(p, cs) => RunHolds(p, cs, q);
      case AllocNew(cs) => RunHolds(w.next, cs, q);
      case _ =>
    }
  }

  // ----- Where freed pages go -----

  /** Pages that this transaction took itself can be taken again at once: a loose page, and, once me_pghead is
    * there, a run of overflow pages. */
  lemma GivenBack(w: Work, oldest: nat, a: WorkStep, cs: seq<int>)
    requires WorkCan(w, oldest, a) && cs != [] && (a.Loosen? || (a.FreeOverflow? && a.n == |cs|))
    ensures WorkCan(DoWork(w, oldest, a), oldest, if a.Loosen? then AllocLoose(a.q, cs[0]) else AllocRun(a.q, cs))
  {
  }

  /** Other pages wait (FreedPagesWait, below). */
  lemma NotTakenAgain(w: Work, oldest: nat, a: WorkStep, q: nat)
    requires Accounts(w) && WorkCan(w, oldest, a) && q in w.freePgs && 2 <= q < w.next
    ensures q in DoWork(w, oldest, a).freePgs && PutsAt(w, a, q) == None
  {
  }

  /** They are listed under the id of the transaction in the snapshot it commits. */
  lemma ListedUnderId(w: Work, id: nat, leftover: Records, q: nat)
    requires q in w.freePgs
    ensures id in SavedFree(w, id, leftover) && q in SavedFree(w, id, leftover)[id]
  {
    assert q in Freed(w);
  }

  // ----- Over a transaction -----

  /** The run took these steps. */
  ghost predicate Steps(run: seq<State>, steps: seq<Step>) {
    |run| == |steps| + 1 && IsRun(run) && forall i :: 0 <= i < |steps| ==> Took(run[i], steps[i], run[i + 1])
  }

  /** The transaction that begins with step i is the one that writes its meta page in step k. */
  ghost predicate Transaction(run: seq<State>, steps: seq<Step>, i: nat, k: nat) {
    && Steps(run, steps) && i < k < |steps| && steps[i].Begin? && steps[k] == WriteMeta
    && forall m :: i < m <= k ==> run[m].writer.Some?
  }

  function WorkOf(s: State): Work {
    if s.writer.Some? then s.writer.value.work else Work(map[], {}, {}, map[], {}, 0, {}, {}, 0)
  }

  function AfterStep(o: Option<int>, s: State, step: Step, q: nat): Option<int> {
    if step.WriterDoes? then After(o, WorkOf(s), step.w, q) else o
  }

  /** What the steps from i up to k leave on page q. */
  function Replay(run: seq<State>, steps: seq<Step>, i: nat, k: nat, q: nat, o: Option<int>): Option<int>
    requires k <= |steps| && |run| == |steps| + 1
    decreases k
  { if k <= i then o else AfterStep(Replay(run, steps, i, k - 1, q, o), run[k - 1], steps[k - 1], q) }

  lemma StepWrites(s: State, step: Step, s': State, q: nat)
    requires Took(s, step, s') && s.writer.Some? && s'.writer.Some?
    ensures Look(WorkOf(s').tree, q) == AfterStep(Look(WorkOf(s).tree, q), s, step, q)
  {
    if step.WriterDoes? { WorkWrites(s.writer.value.work, Oldest(s.table, s.writer.value.proc), step.w, q); }
  }

  lemma FreedStep(s: State, step: Step, s': State, q: nat)
    requires Inv(s) && Took(s, step, s') && s.writer.Some? && s'.writer.Some? && q in WorkOf(s).freePgs
    ensures q in WorkOf(s').freePgs
  {
    hide DiskOk, TableOk, PhaseOk, LeftoverOk, SavedFree;
  }

  lemma NotPut(s: State, step: Step, s': State, q: nat)
    requires Inv(s) && Took(s, step, s') && step.WriterDoes? && q in WorkOf(s).freePgs
    ensures PutsAt(WorkOf(s), step.w, q) == None
  {
    hide DiskOk, WorkCan;
    ActiveMeans(s);
    FreedBelow(s.writer.value.work, q);
    NotTakenAgain(s.writer.value.work, Oldest(s.table, s.writer.value.proc), step.w, q);
  }

  lemma FreedBelow(w: Work, q: nat)
    requires Accounts(w) && q in w.freePgs
    ensures 2 <= q < w.next
  {
    assert q in Rest(w);
  }

  /** Over every run: a page that a transaction frees, and did not take itself, is not taken again as long as the
    * transaction lasts. */
  lemma {:induction false} FreedPagesWait(run: seq<State>, steps: seq<Step>, i: nat, k: nat, q: nat)
    requires Steps(run, steps) && i < k < |steps| && steps[i] == WriterDoes(FreePage(q))
    requires forall m :: i < m <= k ==> run[m].writer.Some?
    ensures q in WorkOf(run[k]).freePgs && (steps[k].WriterDoes? ==> PutsAt(WorkOf(run[k]), steps[k].w, q) == None)
    decreases k
  {
    hide Inv, Enabled, Do, WorkOf, IsRun;
    RunKeeps(run, k);
    if k == i + 1 {
      FreedAt(run[i], q, run[k]);
    } else {
      FreedPagesWait(run, steps, i, k - 1, q);
      RunKeeps(run, k - 1);
      FreedStep(run[k - 1], steps[k - 1], run[k], q);
    }
    if steps[k].WriterDoes? {
      NotPut(run[k], steps[k], run[k + 1], q);
    }
  }

  lemma FreedAt(s: State, q: nat, s': State)
    requires Took(s, WriterDoes(FreePage(q)), s')
    ensures q in WorkOf(s').freePgs
  {
  }

  /** The snapshot about to be committed has the tree of the transaction. */
  predicate FinIsTree(s: State) {
    s.writer.Some? ==> match s.writer.value.phase
      case Saved(fin) => fin.tree == s.writer.value.work.tree
      case Synced(fin) => fin.tree == s.writer.value.work.tree
      case _ => true
  }

  lemma FinStays(s: State, step: Step, s': State)
    requires Took(s, step, s') && FinIsTree(s)
    ensures FinIsTree(s')
  {
    hide WorkCan, DoWork, LeftoverOk, SavedFree, ReaderCan;
  }

  lemma {:induction false} FinOverRun(run: seq<State>, k: nat)
    requires IsRun(run) && k < |run|
    ensures FinIsTree(run[k])
  {
    hide FinIsTree, Took;
    if k == 0 {
      FinAtStart(run[0]);
    } else {
      FinOverRun(run, k - 1);
      assert Next(run[k - 1], run[k]);
      var step :| Took(run[k - 1], step, run[k]);
      FinStays(run[k - 1], step, run[k]);
    }
  }

  lemma FinAtStart(s: State)
    requires Init(s)
    ensures FinIsTree(s)
  {
  }

  lemma BeginTakes(s: State, step: Step, s': State)
    requires Took(s, step, s') && step.Begin?
    ensures WorkOf(s').tree == Snap(s.disk.snaps, Newest(s.disk)).tree
  {
  }

  lemma {:induction false} TreeIsReplayed(run: seq<State>, steps: seq<Step>, i: nat, m: nat, q: nat)
    requires Steps(run, steps) && i < m <= |steps| && steps[i].Begin? && forall j :: i < j <= m ==> run[j].writer.Some?
    ensures Look(WorkOf(run[m]).tree, q) ==
      Replay(run, steps, i + 1, m, q, Look(Snap(run[i].disk.snaps, Newest(run[i].disk)).tree, q))
    decreases m
  {
    hide Took, IsRun, Snap, AfterStep;
    if m == i + 1 {
      BeginTakes(run[i], steps[i], run[m]);
    } else {
      TreeIsReplayed(run, steps, i, m - 1, q);
      StepWrites(run[m - 1], steps[m - 1], run[m], q);
    }
  }

  lemma MetaTakes(s: State, s': State)
    requires Took(s, WriteMeta, s') && FinIsTree(s) && Inv(s)
    ensures Newest(s'.disk) == Newest(s.disk) + 1 && Snap(s'.disk.snaps, Newest(s'.disk)).tree == WorkOf(s).tree
  {
    hide HistoryOk, Intact, TableOk, NextSnapshot, IntactTree, Snap;
    PutIsNewest(s.disk, s.writer.value.Id(), s.writer.value.phase.fin);
  }

  lemma PutIsNewest(d: Disk, id: nat, fin: Snapshot)
    requires MetaOk(d) && id == Newest(d) + 1
    ensures Newest(PutMeta(d, id, fin)) == id && Snap(PutMeta(d, id, fin).snaps, id) == fin
  {
  }

  /** Over every run: a committed snapshot holds on every page what the last step of its transaction that
    * wrote there put on it, no page that was freed and not used again, and for the rest exactly what the
    * newest snapshot held when the transaction began. */
  lemma CommittedIsWritten(run: seq<State>, steps: seq<Step>, i: nat, k: nat, q: nat)
    requires Transaction(run, steps, i, k)
    ensures var d, d' := run[i].disk, run[k + 1].disk;
      Newest(d') == Newest(run[k].disk) + 1
      && Look(Snap(d'.snaps, Newest(d')).tree, q) == Replay(run, steps, i + 1, k, q, Look(Snap(d.snaps, Newest(d)).tree, q))
  {
    hide Inv, FinIsTree, Replay, Newest, Snap;
    TreeIsReplayed(run, steps, i, k, q);
    RunKeeps(run, k);
    FinOverRun(run, k);
    MetaTakes(run[k], run[k + 1]);
  }
}
