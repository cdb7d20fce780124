/** What the walk over the reader table finds (mdb_find_oldest).  Among other steps it is an id that was there
  * when it was looked at, and none that was looked at is older; on its own it is the oldest of all. */
module MvccScan {
  import opened Mvcc
  import Safe = MvccSafety
  import Recent = MvccRecent

  // ----- A walk among other steps -----

  /** In state h the walk looks at the pid of slot i. */
  ghost predicate LooksAtPid(run: seq<State>, h: nat, i: nat) {
    && h + 1 < |run| && Took(run[h], ScanPid, run[h + 1])
    && CurrentScan(run[h]).At? && CurrentScan(run[h]).i == i + 1 && i < |run[h].table.slots|
  }

  /** In state j the walk looks at the transaction id of slot i. */
  ghost predicate LooksAtTxnid(run: seq<State>, j: nat, i: nat) {
    && j + 1 < |run| && Took(run[j], ScanTxnid, run[j + 1])
    && CurrentScan(run[j]).Seen? && CurrentScan(run[j]).i == i && i < |run[j].table.slots|
  }

  ghost predicate FindsPid(run: seq<State>, h: nat, i: nat) { LooksAtPid(run, h, i) && run[h].table.slots[i].pid != 0 }

  ghost predicate FindsTxnid(run: seq<State>, j: nat, i: nat, v: nat) {
    LooksAtTxnid(run, j, i) && run[j].table.slots[i].txnid == Some(v)
  }

  /** State m is in the walk that began in state a. */
  ghost predicate InWalk(run: seq<State>, a: nat, m: nat) {
    && a < m < |run| && Took(run[a], ScanStart, run[a + 1])
    && forall j :: a < j <= m ==> CurrentScan(run[j]) != NoScan
  }

  function Base(s: State): nat { if s.writer.Some? then s.writer.value.base else 0 }
  function Proc(s: State): nat { if s.writer.Some? then s.writer.value.proc else 0 }

  /** The walk found v in a slot that had a pid. */
  ghost predicate Found(run: seq<State>, a: nat, m: nat, v: nat) {
    exists h, j, i :: a < h < j < m && FindsPid(run, h, i) && FindsTxnid(run, j, i, v)
  }

  /** Slot i has been looked at: its pid, and then, if there was one, its transaction id. */
  ghost predicate Visited(run: seq<State>, a: nat, m: nat, i: nat) {
    exists h :: a < h < m && LooksAtPid(run, h, i) && (FindsPid(run, h, i) ==> exists j :: h < j < m && LooksAtTxnid(run, j, i))
  }

  /** v is the writer's base or an id that was found, and not above any that was found. */
  ghost predicate LeastFound(run: seq<State>, a: nat, m: nat, v: nat)
    requires a < |run|
  {
    && (v == Base(run[a]) || Found(run, a, m, v)) && v <= Base(run[a])
    && forall j, i, u :: a < j < m && FindsTxnid(run, j, i, u) ==> v <= u
  }

  /** Slots from i up have been visited. */
  ghost predicate VisitedFrom(run: seq<State>, a: nat, m: nat, i: nat)
    requires a < |run|
  { forall k :: i <= k < |run[a].table.slots| ==> Visited(run, a, m, k) }

  ghost predicate HasPid(run: seq<State>, a: nat, m: nat, i: nat) { exists h :: a < h < m && FindsPid(run, h, i) }

  ghost predicate WalkOk(run: seq<State>, a: nat, m: nat)
    requires a < m < |run|
  {
    && Base(run[m]) == Base(run[a]) && Proc(run[m]) == Proc(run[a])
    && match CurrentScan(run[m])
       case NoScan => false
       case At(i, acc) => LeastFound(run, a, m, acc) && VisitedFrom(run, a, m, i)
       case Seen(i, acc) =>
         LeastFound(run, a, m, acc) && VisitedFrom(run, a, m, i + 1) && HasPid(run, a, m, i)
  }

  /** What a step does to a walk under way. */
  lemma WalkStep(s: State, step: Step, s': State)
    requires Took(s, step, s') && CurrentScan(s) != NoScan && CurrentScan(s') != NoScan
    ensures Base(s') == Base(s) && Proc(s') == Proc(s)
    ensures !step.ScanPid? && !step.ScanTxnid? ==> CurrentScan(s') == CurrentScan(s)
    ensures step.ScanPid? ==> var (i, acc) := (CurrentScan(s).i, CurrentScan(s).acc);
      CurrentScan(s).At? && 0 < i <= |s.table.slots|
      && CurrentScan(s') == if s.table.slots[i - 1].pid == 0 then At(i - 1, acc) else Seen(i - 1, acc)
    ensures step.ScanTxnid? ==> var (i, acc) := (CurrentScan(s).i, CurrentScan(s).acc);
      CurrentScan(s).Seen? && i < |s.table.slots| && CurrentScan(s').At? && CurrentScan(s').i == i
      && CurrentScan(s').acc <= acc && (CurrentScan(s').acc == acc || s.table.slots[i].txnid == Some(CurrentScan(s').acc))
      && (s.table.slots[i].txnid.Some? ==> CurrentScan(s').acc <= s.table.slots[i].txnid.value)
  {
  }

  lemma WalkBegins(run: seq<State>, a: nat)
    requires a + 1 < |run| && Took(run[a], ScanStart, run[a + 1])
    ensures WalkOk(run, a, a + 1) && InWalk(run, a, a + 1)
  {
  }

  lemma StillVisited(run: seq<State>, a: nat, m: nat, n: nat, i: nat)
    requires a < |run| && m <= n && VisitedFrom(run, a, m, i)
    ensures VisitedFrom(run, a, n, i)
  {
    forall k | i <= k < |run[a].table.slots| ensures Visited(run, a, n, k) {
      assert Visited(run, a, m, k);
      var h :| a < h < m && LooksAtPid(run, h, k) && (FindsPid(run, h, k) ==> exists j :: h < j < m && LooksAtTxnid(run, j, k));
    }
  }

  lemma StillFound(run: seq<State>, a: nat, m: nat, n: nat, v: nat)
    requires m <= n && Found(run, a, m, v)
    ensures Found(run, a, n, v)
  {
    var h, j, i :| a < h < j < m && FindsPid(run, h, i) && FindsTxnid(run, j, i, v);
  }

  /** Where no transaction id is looked at, the least one found is the same. */
  lemma LeastKept(run: seq<State>, a: nat, m: nat, n: nat, acc: nat)
    requires a < m && n == m + 1 < |run| && LeastFound(run, a, m, acc) && forall i :: !LooksAtTxnid(run, m, i)
    ensures LeastFound(run, a, n, acc)
  {
    if acc != Base(run[a]) { StillFound(run, a, m, n, acc); }
  }

  /** A pid is looked at. */
  lemma PidStep(run: seq<State>, a: nat, m: nat, n: nat)
    requires a < m && n == m + 1 < |run| && WalkOk(run, a, m) && Took(run[m], ScanPid, run[n]) && CurrentScan(run[n]) != NoScan
    ensures WalkOk(run, a, n)
  {
    hide Took, FindsTxnid, Visited, Found, CurrentScan, Base, Proc;
    WalkStep(run[m], ScanPid, run[n]);
    var i, acc := CurrentScan(run[m]).i - 1, CurrentScan(run[m]).acc;
    LookedAtPid(run, a, m, n, i);
    StillVisited(run, a, m, n, i + 1);
    LeastKept(run, a, m, n, acc);
  }

  lemma LookedAtPid(run: seq<State>, a: nat, m: nat, n: nat, i: nat)
    requires a < m && n == m + 1 < |run| && Took(run[m], ScanPid, run[n])
    requires CurrentScan(run[m]).At? && CurrentScan(run[m]).i == i + 1 && i < |run[m].table.slots|
    ensures if run[m].table.slots[i].pid == 0 then Visited(run, a, n, i) else HasPid(run, a, n, i)
  {
    hide Took;
    assert LooksAtPid(run, m, i) && (run[m].table.slots[i].pid != 0 ==> FindsPid(run, m, i));
  }

  /** A transaction id is looked at. */
  lemma TxnidStep(run: seq<State>, a: nat, m: nat, n: nat)
    requires a < m && n == m + 1 < |run| && WalkOk(run, a, m) && Took(run[m], ScanTxnid, run[n]) && CurrentScan(run[n]) != NoScan
    ensures WalkOk(run, a, n)
  {
    hide Took, Visited, Found, CurrentScan, Base, Proc, LooksAtPid;
    WalkStep(run[m], ScanTxnid, run[n]);
    var i, acc, acc' := CurrentScan(run[m]).i, CurrentScan(run[m]).acc, CurrentScan(run[n]).acc;
    assert LooksAtTxnid(run, m, i);
    LookedAtTxnid(run, a, m, n, i);
    StillVisited(run, a, m, n, i + 1);
    LeastLowered(run, a, m, n, i, acc, acc');
  }

  lemma LookedAtTxnid(run: seq<State>, a: nat, m: nat, n: nat, i: nat)
    requires a < m && n == m + 1 && LooksAtTxnid(run, m, i) && HasPid(run, a, m, i)
    ensures Visited(run, a, n, i)
    ensures forall v :: FindsTxnid(run, m, i, v) ==> Found(run, a, n, v)
  {
    var h :| a < h < m && FindsPid(run, h, i);
    assert LooksAtPid(run, h, i);
  }

  lemma LeastLowered(run: seq<State>, a: nat, m: nat, n: nat, i: nat, acc: nat, acc': nat)
    requires a < m && n == m + 1 < |run| && LeastFound(run, a, m, acc) && LooksAtTxnid(run, m, i) && acc' <= acc
    requires acc' == acc || run[m].table.slots[i].txnid == Some(acc')
    requires run[m].table.slots[i].txnid.Some? ==> acc' <= run[m].table.slots[i].txnid.value
    requires forall v :: FindsTxnid(run, m, i, v) ==> Found(run, a, n, v)
    ensures LeastFound(run, a, n, acc')
  {
    if acc' != acc {
      assert FindsTxnid(run, m, i, acc');
    } else if acc != Base(run[a]) {
      StillFound(run, a, m, n, acc);
    }
  }

  /** Any other step leaves the walk as it is. */
  lemma OtherStep(run: seq<State>, a: nat, m: nat, n: nat, step: Step)
    requires a < m && n == m + 1 < |run| && WalkOk(run, a, m) && Took(run[m], step, run[n]) && CurrentScan(run[n]) != NoScan
    requires !Took(run[m], ScanPid, run[n]) && !Took(run[m], ScanTxnid, run[n])
    ensures WalkOk(run, a, n)
  {
    hide Took, Visited, Found, CurrentScan, Base, Proc, LooksAtPid;
    WalkStep(run[m], step, run[n]);
    LeastKept(run, a, m, n, CurrentScan(run[m]).acc);
    StillVisited(run, a, m, n, if CurrentScan(run[m]).At? then CurrentScan(run[m]).i else CurrentScan(run[m]).i + 1);
  }

  lemma {:induction false} WalkKeeps(run: seq<State>, a: nat, m: nat)
    requires InWalk(run, a, m) && forall j :: 0 < j < |run| ==> Next(run[j - 1], run[j])
    ensures WalkOk(run, a, m)
    decreases m
  {
    hide Took, CurrentScan, WalkOk;
    if m == a + 1 {
      WalkBegins(run, a);
    } else {
      WalkKeeps(run, a, m - 1);
      assert Next(run[m - 1], run[m]);
      var step :| Took(run[m - 1], step, run[m]);
      if Took(run[m - 1], ScanPid, run[m]) {
        PidStep(run, a, m - 1, m);
      } else if Took(run[m - 1], ScanTxnid, run[m]) {
        TxnidStep(run, a, m - 1, m);
      } else {
        OtherStep(run, a, m - 1, m, step);
      }
    }
  }

  /** A walk begins where there was none. */
  lemma OnlyStarts(s: State, step: Step, s': State)
    requires Took(s, step, s') && CurrentScan(s) == NoScan && CurrentScan(s') != NoScan
    ensures step == ScanStart
  {
  }

  lemma {:induction false} WalkHasBegun(run: seq<State>, m: nat) returns (a: nat)
    requires Safe.IsRun(run) && m < |run| && CurrentScan(run[m]) != NoScan
    ensures InWalk(run, a, m)
    decreases m
  {
    hide Took, CurrentScan;
    StartsIdle(run);
    assert Next(run[m - 1], run[m]);
    if CurrentScan(run[m - 1]) != NoScan {
      a := WalkHasBegun(run, m - 1);
    } else {
      var step :| Took(run[m - 1], step, run[m]);
      OnlyStarts(run[m - 1], step, run[m]);
      a := m - 1;
    }
  }

  lemma StartsIdle(run: seq<State>)
    requires Safe.IsRun(run)
    ensures run != [] && CurrentScan(run[0]) == NoScan
  {
  }

  lemma WalkEnds(s: State, s': State)
    requires Took(s, ScanEnd, s')
    ensures CurrentScan(s).At? && CurrentScan(s).i == 0 && s.writer.Some?
    ensures Proc(s) in s'.table.oldest && s'.table.oldest[Proc(s)] == CurrentScan(s).acc
  {
  }

  /** Over every run, whatever readers do meanwhile: the id that the walk leaves in me_pgoldest is the writer's
    * base or was held, when it was looked at, by a slot in which a pid had been seen; it is not above the base
    * nor above any id that was looked at; and every slot there was has been looked at. */
  lemma OldestWasThere(run: seq<State>, k: nat) returns (a: nat)
    requires Safe.IsRun(run) && k + 1 < |run| && Took(run[k], ScanEnd, run[k + 1])
    ensures InWalk(run, a, k) && Proc(run[k]) in run[k + 1].table.oldest
    ensures LeastFound(run, a, k, run[k + 1].table.oldest[Proc(run[k])])
    ensures forall i :: 0 <= i < |run[a].table.slots| ==> Visited(run, a, k, i)
  {
    hide Took, CurrentScan, Visited, LeastFound, Proc, Base;
    WalkEnds(run[k], run[k + 1]);
    a := WalkHasBegun(run, k);
    WalkKeeps(run, a, k);
  }

  // ----- A walk on its own -----

  ghost predicate ScansOnly(s: State, s': State) { Took(s, ScanPid, s') || Took(s, ScanTxnid, s') }

  /** The least of `base` and the transaction ids in slots with a pid, from slot i up. */
  predicate IsOldest(slots: seq<Slot>, i: nat, base: nat, v: nat) {
    && v <= base && (forall k :: i <= k < |slots| && slots[k].pid != 0 && slots[k].txnid.Some? ==> v <= slots[k].txnid.value)
    && (v == base || exists k :: i <= k < |slots| && slots[k].pid != 0 && slots[k].txnid == Some(v))
  }

  predicate Alone(s: State, slots: seq<Slot>, base: nat, proc: nat) {
    && s.table.slots == slots && Base(s) == base && Proc(s) == proc
    && match CurrentScan(s)
       case NoScan => false
       case At(i, acc) => i <= |slots| && IsOldest(slots, i, base, acc)
       case Seen(i, acc) => i < |slots| && slots[i].pid != 0 && IsOldest(slots, i + 1, base, acc)
  }

  lemma AloneStep(s: State, s': State, slots: seq<Slot>, base: nat, proc: nat)
    requires Alone(s, slots, base, proc) && ScansOnly(s, s')
    ensures Alone(s', slots, base, proc)
  {
    var step := if Took(s, ScanPid, s') then ScanPid else ScanTxnid;
    assert CurrentScan(s') != NoScan;
    WalkStep(s, step, s');
  }

  lemma {:induction false} AloneKeeps(run: seq<State>, a: nat, m: nat)
    requires a < m < |run| && Took(run[a], ScanStart, run[a + 1]) && forall j :: a < j < m ==> ScansOnly(run[j], run[j + 1])
    ensures Alone(run[m], run[a].table.slots, Base(run[a]), Proc(run[a]))
    decreases m
  {
    hide ScansOnly;
    if m > a + 1 {
      AloneKeeps(run, a, m - 1);
      AloneStep(run[m - 1], run[m], run[a].table.slots, Base(run[a]), Proc(run[a]));
    }
  }

  /** With nothing else in between the walk leaves the least of the writer's base and all ids in slots with a
    * pid: what mdb_find_oldest is for. */
  lemma OldestAlone(run: seq<State>, a: nat, k: nat)
    requires a < k && k + 1 < |run| && Took(run[a], ScanStart, run[a + 1]) && Took(run[k], ScanEnd, run[k + 1])
    requires forall j :: a < j < k ==> ScansOnly(run[j], run[j + 1])
    ensures Proc(run[a]) in run[k + 1].table.oldest
    ensures IsOldest(run[a].table.slots, 0, Base(run[a]), run[k + 1].table.oldest[Proc(run[a])])
  {
    hide Took, ScansOnly, IsOldest, CurrentScan, Base, Proc;
    AloneKeeps(run, a, k);
    WalkEnds(run[k], run[k + 1]);
  }

  function Left(scan: Scan): nat {
    match scan case NoScan => 0 case At(i, _) => 2 * i case Seen(i, _) => 2 * i + 1
  }

  /** Such a walk comes to its end. */
  lemma {:induction false} AloneEnds(s: State) returns (run: seq<State>)
    requires Newest(s.disk) in s.disk.snaps && CurrentScan(s) != NoScan && Left(CurrentScan(s)) <= 2 * |s.table.slots|
    ensures run != [] && run[0] == s && CurrentScan(run[|run| - 1]).At? && CurrentScan(run[|run| - 1]).i == 0
    ensures forall j :: 0 <= j < |run| - 1 ==> ScansOnly(run[j], run[j + 1])
    decreases Left(CurrentScan(s))
  {
    if Left(CurrentScan(s)) == 0 { return [s]; }
    var step := if CurrentScan(s).At? then ScanPid else ScanTxnid;
    var s' := Do(s, step);
    assert Took(s, step, s') && Left(CurrentScan(s')) < Left(CurrentScan(s));
    var rest := AloneEnds(s');
    run := [s] + rest;
    forall j | 0 <= j < |run| - 1 ensures ScansOnly(run[j], run[j + 1]) {
      if j > 0 { assert run[j] == rest[j - 1] && run[j + 1] == rest[j]; }
    }
  }

  /** While nobody reads, such a walk lets everything up to the last transaction be reclaimed. */
  lemma NobodyReads(run: seq<State>, a: nat, k: nat)
    requires Safe.IsRun(run) && a < k && k + 1 < |run| && Took(run[a], ScanStart, run[a + 1]) && Took(run[k], ScanEnd, run[k + 1])
    requires forall j :: a < j < k ==> ScansOnly(run[j], run[j + 1])
    requires forall i :: 0 <= i < |run[a].table.slots| ==> run[a].table.slots[i].pid == 0 || run[a].table.slots[i].reader.Idle?
    ensures Proc(run[a]) in run[k + 1].table.oldest && run[k + 1].table.oldest[Proc(run[a])] == Base(run[a])
  {
    hide Took, ScansOnly, Safe.IsRun, CurrentScan, Base, Proc;
    OldestAlone(run, a, k);
    forall i | 0 <= i < |run[a].table.slots| ensures run[a].table.slots[i].pid == 0 || run[a].table.slots[i].txnid == None {
      if run[a].table.slots[i].reader.Idle? { Recent.IdleHoldsNothing(run, a, i); }
    }
  }
}
