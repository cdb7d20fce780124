/** A commit with nothing else in between goes through, an abort leaves nothing behind, and both make way for the
  * next writer. */
module MvccCommit {
  import opened Mvcc
  import opened MvccSafety

  /** States that follow from one another. */
  ghost predicate Path(run: seq<State>) { run != [] && forall j :: 0 <= j < |run| - 1 ==> Next(run[j], run[j + 1]) }

  lemma OneMore(run: seq<State>, step: Step, s': State)
    requires Path(run) && Took(run[|run| - 1], step, s')
    ensures Path(run + [s'])
  {
    hide Took;
    var more := run + [s'];
    forall j | 0 <= j < |more| - 1 ensures Next(more[j], more[j + 1]) {
      if j < |run| - 1 { assert Next(run[j], run[j + 1]); }
    }
  }

  /** Pages still to be written. */
  function Unwritten(w: Work): set<nat> { set p | p in w.dirty && p in w.tree }

  /** The writer is saving `fin`, and the rest of its work is w0. */
  predicate Saving(s: State, w: Writer, fin: Snapshot) {
    && s.writer.Some? && s.writer.value.base == w.base && s.writer.value.phase == Saved(fin)
    && s.writer.value.work.tree == w.work.tree && s.writer.value.work.loose == w.work.loose && fin.tree == w.work.tree
  }

  /** One page is flushed. */
  lemma FlushOne(s: State, w: Writer, fin: Snapshot, q: nat) returns (s': State)
    requires Saving(s, w, fin) && Newest(s.disk) in s.disk.snaps && w.work.tree.Keys !! w.work.loose && q in Unwritten(s.writer.value.work)
    ensures Took(s, Flush(q, w.work.tree[q]), s') && Saving(s', w, fin)
    ensures Unwritten(s'.writer.value.work) == Unwritten(s.writer.value.work) - {q}
    ensures s'.disk.snaps == s.disk.snaps && Newest(s'.disk) == Newest(s.disk)
  {
    s' := Do(s, Flush(q, w.work.tree[q]));
  }

  lemma TreeNotLoose(w: Work)
    requires Accounts(w)
    ensures w.tree.Keys !! w.loose
  {
    assert w.loose <= Rest(w);
  }

  lemma NoneUnwritten(w: Work)
    requires Unwritten(w) == {}
    ensures w.dirty !! w.tree.Keys
  {
    forall p | p in w.dirty ensures p !in w.tree { assert p !in Unwritten(w); }
  }

  /** The writer is at a later phase, with base n. */
  predicate InPhaseOf(s: State, n: nat, phase: Phase) { s.writer.Some? && s.writer.value.base == n && s.writer.value.phase == phase }

  lemma SyncStep(s: State, w: Writer, fin: Snapshot) returns (s1: State)
    requires Saving(s, w, fin) && Unwritten(s.writer.value.work) == {} && Newest(s.disk) in s.disk.snaps
    ensures Took(s, SyncData, s1) && InPhaseOf(s1, w.base, Synced(fin)) && Newest(s1.disk) == Newest(s.disk)
  {
    NoneUnwritten(s.writer.value.work);
    s1 := Do(s, SyncData);
  }

  lemma MetaStep(s: State, n: nat, fin: Snapshot) returns (s1: State)
    requires InPhaseOf(s, n, Synced(fin)) && Newest(s.disk) in s.disk.snaps && MetaOk(s.disk) && n == Newest(s.disk)
    ensures Took(s, WriteMeta, s1) && InPhaseOf(s1, n, Written) && Newest(s1.disk) == n + 1 && Snap(s1.disk.snaps, n + 1) == fin
  {
    s1 := Do(s, WriteMeta);
  }

  lemma PublishSteps(s: State, n: nat) returns (s1: State, s2: State)
    requires InPhaseOf(s, n, Written) && Newest(s.disk) in s.disk.snaps
    ensures Took(s, SyncMeta, s1) && Took(s1, PublishTxn, s2) && s2.writer.None? && s2.table.pub == n + 1
    ensures s2.disk == s.disk.(metaDurable := true)
  {
    s1 := Do(s, SyncMeta);
    s2 := Do(s1, PublishTxn);
  }

  lemma SameMeta(d: Disk)
    ensures Newest(d.(metaDurable := true)) == Newest(d)
  {
  }

  lemma SavingMeans(s: State, w: Writer, fin: Snapshot)
    requires Inv(s) && Saving(s, w, fin)
    ensures w.base == Newest(s.disk)
  {
    hide DiskOk, TableOk, FinalOk;
  }

  lemma MetaOfInv(s: State)
    requires Inv(s)
    ensures MetaOk(s.disk)
  {
    hide TableOk, PhaseOk, HistoryOk, Intact;
  }

  /** With all pages written the commit comes to its end. */
  lemma Finish(s: State, w: Writer, fin: Snapshot) returns (s1: State, s2: State, s3: State, s4: State)
    requires Inv(s) && Saving(s, w, fin) && Unwritten(s.writer.value.work) == {}
    ensures Took(s, SyncData, s1) && Took(s1, WriteMeta, s2) && Took(s2, SyncMeta, s3) && Took(s3, PublishTxn, s4)
    ensures s4.writer.None? && s4.table.pub == Newest(s4.disk) == Newest(s.disk) + 1 && s4.disk.metaDurable
    ensures Snap(s4.disk.snaps, Newest(s4.disk)) == fin
  {
    hide Inv, Took, Saving, InPhaseOf, Newest, Snap, MetaOk, Unwritten;
    NewestThere(s);
    SavingMeans(s, w, fin);
    s1 := SyncStep(s, w, fin);
    Kept(s, SyncData, s1);
    NewestThere(s1);
    MetaOfInv(s1);
    s2 := MetaStep(s1, w.base, fin);
    Kept(s1, WriteMeta, s2);
    NewestThere(s2);
    s3, s4 := PublishSteps(s2, w.base);
    SameMeta(s2.disk);
  }

  /** mdb_txn_commit on its own, from any state of the work: the snapshot it saves becomes the newest one, durable
    * and published, and the writer is through. */
  lemma CommitAlone(s: State, leftover: Records) returns (run: seq<State>)
    requires Inv(s) && Enabled(s, Save(leftover))
    ensures Path(run) && run[0] == s && s.writer.Some?
    ensures var e := run[|run| - 1]; var w := s.writer.value;
      e.writer.None? && e.table.pub == Newest(e.disk) == Newest(s.disk) + 1 && e.disk.metaDurable
      && Snap(e.disk.snaps, Newest(e.disk)) == Snapshot(w.work.tree, SavedFree(w.work, w.Id(), leftover), w.work.next)
  {
    hide Inv, Enabled, Took, Newest, Snap;
    NewestThere(s);
    SaveIs(s, leftover);
    ActiveMeans(s);
    var w := s.writer.value;
    var fin := Snapshot(w.work.tree, SavedFree(w.work, w.Id(), leftover), w.work.next);
    WorkMeans(s.disk, w.work);
    TreeNotLoose(w.work);
    var e := Do(s, Save(leftover));
    run := [s];
    Taken(s, Save(leftover));
    OneMore(run, Save(leftover), e);
    run := run + [e];
    SameNewest(s, e, fin);
    StepKeeps(s, Save(leftover));
    while Unwritten(e.writer.value.work) != {}
      invariant Path(run) && run[0] == s && run[|run| - 1] == e && Inv(e) && Saving(e, w, fin)
      invariant Newest(e.disk) == Newest(s.disk)
      decreases |Unwritten(e.writer.value.work)|
    {
      NewestThere(e);
      var q :| q in Unwritten(e.writer.value.work);
      var e' := FlushOne(e, w, fin, q);
      Kept(e, Flush(q, w.work.tree[q]), e');
      OneMore(run, Flush(q, w.work.tree[q]), e');
      run, e := run + [e'], e';
    }
    var e1, e2, e3, e4 := Finish(e, w, fin);
    OneMore(run, SyncData, e1);
    OneMore(run + [e1], WriteMeta, e2);
    OneMore(run + [e1] + [e2], SyncMeta, e3);
    OneMore(run + [e1] + [e2] + [e3], PublishTxn, e4);
    run := run + [e1] + [e2] + [e3] + [e4];
  }

  lemma Taken(s: State, step: Step)
    requires Enabled(s, step) && Newest(s.disk) in s.disk.snaps
    ensures Took(s, step, Do(s, step))
  {
    hide Enabled, Do;
  }

  lemma Kept(s: State, step: Step, s': State)
    requires Inv(s) && Took(s, step, s')
    ensures Inv(s')
  {
    hide Inv, Enabled, Do;
    StepKeeps(s, step);
  }

  lemma SameNewest(s: State, e: State, fin: Snapshot)
    requires s.writer.Some? && e == WithPhase(s, Saved(fin)) && fin.tree == s.writer.value.work.tree
    ensures Newest(e.disk) == Newest(s.disk) && Saving(e, s.writer.value, fin)
  {
  }

  /** After an abort the file, the snapshots and the published id are as they were, the newest snapshot is
    * complete, and another transaction can begin. */
  lemma AbortLeavesNothing(s: State, s': State, p: nat)
    requires Inv(s) && Took(s, Abort, s') && p != 0
    ensures s'.disk == s.disk && s'.table == s.table && Enabled(s', Begin(p))
    ensures Newest(s.disk) in s.disk.snaps && IntactTree(s'.disk.content, s'.disk.unsynced, Snap(s.disk.snaps, Newest(s.disk)).tree)
  {
    hide TableOk, PhaseOk, SnapshotOk, Unused;
    NewestThere(s);
  }
}
