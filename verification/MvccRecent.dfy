/** What a reader that begins sees: the newest transaction published, and never one older than was published
  * when it began. */
module MvccRecent {
  import opened Mvcc
  import opened MvccSafety

  // ----- Undisturbed -----

  /** mdb_txn_renew0 with nothing else in between: a reader that may begin gets through at the first attempt, is
    * registered at the published id, and finds the snapshot of that id in its meta page. */
  lemma ReaderAlone(s: State, j: nat) returns (s1: State, s2: State, s3: State, s4: State)
    requires Inv(s) && Enabled(s, ReaderDoes(j, LoadTxnid))
    ensures Took(s, ReaderDoes(j, LoadTxnid), s1) && Took(s1, ReaderDoes(j, StoreTxnid), s2)
    ensures Took(s2, ReaderDoes(j, CheckTxnid), s3) && Took(s3, ReaderDoes(j, CopyMeta), s4)
    ensures j < |s.table.slots| && s4.table.slots == s.table.slots[j := s4.table.slots[j]]
    ensures s4.table.slots[j] == Slot(s.table.slots[j].pid, Some(s.table.pub), Reading(s.table.pub, s.table.pub))
    ensures s.writer.None? && !s.orphan ==> s.table.pub == Newest(s.disk)
  {
    hide HistoryOk, Intact, PhaseOk, CachesOk;
    NewestThere(s);
    PublishedIsInMeta(s.disk, s.table.pub);
    s1 := Do(s, ReaderDoes(j, LoadTxnid));
    s2 := Do(s1, ReaderDoes(j, StoreTxnid));
    s3 := Do(s2, ReaderDoes(j, CheckTxnid));
    s4 := Do(s3, ReaderDoes(j, CopyMeta));
  }

  /** The published transaction is in the meta page of its parity. */
  lemma PublishedIsInMeta(d: Disk, pub: nat)
    requires MetaOk(d) && pub <= Newest(d) <= pub + 1
    ensures MetaAt(d, pub) == pub
  {
  }

  // ----- Among other steps -----

  /** The id that a reader has loaded is not below `pub`. */
  predicate NotBefore(r: Reader, pub: nat) {
    match r
    case Loaded(v) => pub <= v
    case Stored(v) => pub <= v
    case Registered(v) => pub <= v
    case Reading(v, _) => pub <= v
    case _ => true
  }

  predicate SlotNotBefore(t: Table, j: nat, pub: nat) { pub <= t.pub && (j < |t.slots| ==> NotBefore(t.slots[j].reader, pub)) }

  lemma StepNotBefore(s: State, step: Step, s': State, j: nat, pub: nat)
    requires Inv(s) && Took(s, step, s') && !step.Crash? && SlotNotBefore(s.table, j, pub)
    ensures SlotNotBefore(s'.table, j, pub)
  {
    hide DiskOk, PhaseOk, CachesOk, WorkCan;
    PubGrows(s, step, s');
    if step.ReaderDoes? {
      if j < |s'.table.slots| && j != step.j { assert s'.table.slots[j] == s.table.slots[j]; }
    }
  }

  lemma PubGrows(s: State, step: Step, s': State)
    requires Inv(s) && Took(s, step, s') && !step.Crash?
    ensures s.table.pub <= s'.table.pub
  {
    hide DiskOk, CachesOk, WorkOk, FinalOk, ScanOk;
  }

  lemma {:induction false} NotBeforeStays(run: seq<State>, i: nat, k: nat, j: nat)
    requires IsRun(run) && i <= k < |run| && SlotNotBefore(run[i].table, j, run[i].table.pub)
    requires forall m :: i < m <= k ==> StepsSoftly(run[m - 1], run[m])
    ensures SlotNotBefore(run[k].table, j, run[i].table.pub)
    decreases k
  {
    hide Inv, SlotNotBefore, Took;
    if i < k {
      NotBeforeStays(run, i, k - 1, j);
      RunKeeps(run, k - 1);
      assert StepsSoftly(run[k - 1], run[k]);
      var step: Step :| Took(run[k - 1], step, run[k]) && !step.Crash?;
      StepNotBefore(run[k - 1], step, run[k], j, run[i].table.pub);
    }
  }

  predicate HasLoaded(r: Reader) { r.Loaded? || r.Stored? || r.Registered? || r.Reading? }

  /** Over every run: a reader that had not yet begun when transaction N was published sees N or a later one. */
  lemma ReadsAreRecent(run: seq<State>, i: nat, k: nat, j: nat)
    requires IsRun(run) && i <= k < |run| && (j < |run[i].table.slots| ==> !HasLoaded(run[i].table.slots[j].reader))
    requires forall m :: i < m <= k ==> StepsSoftly(run[m - 1], run[m])
    requires j < |run[k].table.slots| && run[k].table.slots[j].reader.Reading?
    ensures run[i].table.pub <= run[k].table.slots[j].reader.s <= run[k].table.slots[j].reader.a
  {
    hide Inv;
    NotBeforeStays(run, i, k, j);
    RunKeeps(run, k);
    ReadsForward(run[k], j);
  }

  lemma ReadsForward(s: State, j: nat)
    requires Inv(s) && j < |s.table.slots| && s.table.slots[j].reader.Reading?
    ensures s.table.slots[j].reader.s <= s.table.slots[j].reader.a
  {
    assert SlotOk(s.table.slots[j], s.disk.lo, s.table.pub, Newest(s.disk));
  }

  // ----- Giving up -----

  /** A slot whose owner is not in a transaction holds no id. */
  predicate HoldsNothing(x: Slot) { x.reader.Idle? || x.reader.Unclaimed? || x.reader.Claiming? ==> x.pid == 0 || x.txnid == None }

  predicate AllHold(t: Table) { forall j :: 0 <= j < |t.slots| ==> HoldsNothing(t.slots[j]) }

  lemma HoldsStep(s: State, step: Step, s': State)
    requires Inv(s) && Took(s, step, s') && AllHold(s.table)
    ensures AllHold(s'.table)
  {
    hide DiskOk, PhaseOk, CachesOk, WorkCan;
  }

  lemma {:induction false} AllHoldOverRun(run: seq<State>, i: nat)
    requires IsRun(run) && i < |run|
    ensures AllHold(run[i].table)
    decreases i
  {
    hide Inv, HoldsNothing, Took;
    if i > 0 {
      AllHoldOverRun(run, i - 1);
      RunKeeps(run, i - 1);
      assert Next(run[i - 1], run[i]);
      var step :| Took(run[i - 1], step, run[i]);
      HoldsStep(run[i - 1], step, run[i]);
    }
  }

  /** Over every run: a reader that has ended its transaction, or not begun one, holds back no record. */
  lemma IdleHoldsNothing(run: seq<State>, i: nat, j: nat)
    requires IsRun(run) && i < |run| && j < |run[i].table.slots| && run[i].table.slots[j].reader.Idle?
    ensures run[i].table.slots[j].txnid == None
  {
    AllHoldOverRun(run, i);
    RunKeeps(run, i);
    assert HoldsNothing(run[i].table.slots[j]) && SlotOk(run[i].table.slots[j], run[i].disk.lo, run[i].table.pub, Newest(run[i].disk));
  }

  /** The slots of a process that dies stay as they are, and go on holding back records until they are swept. */
  lemma DeadHoldOn(s: State, p: nat, s': State, j: nat)
    requires Inv(s) && Took(s, Kill(p), s') && j < |s.table.slots| && s.table.slots[j].pid == p
    ensures s'.table.slots[j] == s.table.slots[j].(reader := Dead) && Enabled(s', ReaderDoes(j, Sweep))
  {
    assert SlotOk(s.table.slots[j], s.disk.lo, s.table.pub, Newest(s.disk));
  }

  /** A slot that is given up, or swept after its process died, can be claimed again, unless an earlier one can. */
  lemma SlotComesFree(s: State, j: nat, r: ReaderStep, s': State) returns (k: nat)
    requires Took(s, ReaderDoes(j, r), s') && (r.ReleaseSlot? || r.Sweep?) && NoClaim(s.table)
    ensures k <= j && FirstFree(s'.table, k)
  {
    k := 0;
    while s'.table.slots[k].pid != 0
      invariant k <= j < |s'.table.slots| && s'.table.slots[j].pid == 0 && forall i :: 0 <= i < k ==> s'.table.slots[i].pid != 0
      decreases j - k
    {
      k := k + 1;
    }
  }
}
