/** The sweep for stale readers (mdb_reader_check0) beside processes that come, claim slots, die, and whose
  * process ids are used again. */
module ReaderSweep {

  datatype Option<+T> = None | Some(value: T)

  /** A process: `locked` is that it holds the file lock for its pid. */
  datatype Proc = Proc(pid: nat, alive: bool, locked: bool)

  /** A reader slot; `owner` is the process that claimed it (history, the table holds only the pid). */
  datatype Slot = Slot(pid: nat, owner: nat)

  /** A sweep over the first `rdrs` slots is at slot i; pids in `seen` have been checked. */
  datatype Sweep = Sweep(i: nat, rdrs: nat, seen: set<nat>)

  /** Where a thread is.  A sweep has found a pid unlocked (Checked), has the mutex (Holding), has checked
    * again under the mutex and is clearing from j on (Clearing), or is through with that pid (Cleared). */
  datatype Pc = Idle | Claiming | Claimed | Sweeping(w: Sweep) | Checked(w: Sweep, pid: nat) | Holding(w: Sweep, pid: nat)
    | Clearing(w: Sweep, pid: nat, j: nat) | Cleared(w: Sweep)

  datatype Thread = Thread(proc: nat, pc: Pc)

  datatype State = State(procs: seq<Proc>, slots: seq<Slot>, threads: seq<Thread>, rmutex: Option<nat>)

  datatype Step =
    | Birth(pid: nat)             // a process starts; the system gives it a pid that no live process has
    | Spawn(p: nat)               // a thread starts
    | Death(p: nat)               // a process ends: its locks go, its slots stay
    | PidSet(t: nat)              // mdb_reader_pid(Pidset)
    | LockClaim(t: nat)           // lock rmutex to claim a slot
    | Claim(t: nat, i: nat)       // claim a free slot, or a new one
    | UnlockClaim(t: nat)
    | Release(t: nat, i: nat)     // give up an own slot; this needs no mutex
    | SweepStart(t: nat)
    | SweepLook(t: nat)           // look at the next slot: Pidcheck without the mutex
    | SweepLock(t: nat)
    | SweepRecheck(t: nat)        // Pidcheck again, with the mutex
    | SweepClear(t: nat)          // clear the next slot with the pid
    | SweepUnlock(t: nat)
    | SweepEnd(t: nat)

  /** mdb_reader_pid(Pidcheck): a live process holds the lock. */
  predicate PidLocked(s: State, pid: nat) { exists p :: 0 <= p < |s.procs| && Holds(s.procs[p], pid) }
  predicate Holds(p: Proc, pid: nat) { p.alive && p.locked && p.pid == pid }

  predicate Runs(s: State, t: nat) {
    t < |s.threads| && s.threads[t].proc < |s.procs| && s.procs[s.threads[t].proc].alive
  }

  predicate Can(s: State, step: Step) {
    match step
    case Birth(pid) => pid > 0 && forall p :: 0 <= p < |s.procs| && s.procs[p].alive ==> s.procs[p].pid != pid
    case Spawn(p) => p < |s.procs| && s.procs[p].alive
    case Death(p) => p < |s.procs| && s.procs[p].alive
    case PidSet(t) => Runs(s, t) && s.threads[t].pc == Idle
    case LockClaim(t) => Runs(s, t) && s.threads[t].pc == Idle && s.procs[s.threads[t].proc].locked && s.rmutex == None
    case Claim(t, i) => Runs(s, t) && s.threads[t].pc == Claiming && i <= |s.slots| && (i < |s.slots| ==> s.slots[i].pid == 0)
    case UnlockClaim(t) => Runs(s, t) && s.threads[t].pc == Claimed
    case Release(t, i) => Runs(s, t) && i < |s.slots| && s.slots[i].pid != 0 && s.slots[i].owner == s.threads[t].proc
    case SweepStart(t) => Runs(s, t) && s.threads[t].pc == Idle
    case SweepLook(t) => Runs(s, t) && s.threads[t].pc.Sweeping? && s.threads[t].pc.w.i < s.threads[t].pc.w.rdrs && s.threads[t].pc.w.i < |s.slots|
    case SweepLock(t) => Runs(s, t) && s.threads[t].pc.Checked? && s.rmutex == None
    case SweepRecheck(t) => Runs(s, t) && s.threads[t].pc.Holding?
    case SweepClear(t) => Runs(s, t) && s.threads[t].pc.Clearing? && s.threads[t].pc.j < s.threads[t].pc.w.rdrs && s.threads[t].pc.j < |s.slots|
    case SweepUnlock(t) => Runs(s, t) && (s.threads[t].pc.Cleared? || (s.threads[t].pc.Clearing? && s.threads[t].pc.j >= s.threads[t].pc.w.rdrs))
    case SweepEnd(t) => Runs(s, t) && s.threads[t].pc.Sweeping? && s.threads[t].pc.w.i >= s.threads[t].pc.w.rdrs
  }

  function At(s: State, t: nat, pc: Pc): State
    requires t < |s.threads|
  { s.(threads := s.threads[t := s.threads[t].(pc := pc)]) }

  function Pid(s: State, t: nat): nat
    requires Runs(s, t)
  { s.procs[s.threads[t].proc].pid }

  function Do(s: State, step: Step): State
    requires Can(s, step)
  {
    match step
    case Birth(pid) => s.(procs := s.procs + [Proc(pid, true, false)])
    case Spawn(p) => s.(threads := s.threads + [Thread(p, Idle)])
    case Death(p) =>
      s.(procs := s.procs[p := Proc(s.procs[p].pid, false, false)],
         rmutex := if s.rmutex.Some? && s.rmutex.value < |s.threads| && s.threads[s.rmutex.value].proc == p then None else s.rmutex)
    case PidSet(t) => s.(procs := s.procs[s.threads[t].proc := s.procs[s.threads[t].proc].(locked := true)])
    case LockClaim(t) => At(s, t, Claiming).(rmutex := Some(t))
    case Claim(t, i) =>
      var slot := Slot(Pid(s, t), s.threads[t].proc);
      At(s, t, Claimed).(slots := if i < |s.slots| then s.slots[i := slot] else s.slots + [slot])
    case UnlockClaim(t) => At(s, t, Idle).(rmutex := None)
    case Release(t, i) => s.(slots := s.slots[i := s.slots[i].(pid := 0)])
    case SweepStart(t) => At(s, t, Sweeping(Sweep(0, |s.slots|, {})))
    case SweepLook(t) => At(s, t, Look(s, t))
    case SweepLock(t) => At(s, t, Holding(s.threads[t].pc.w, s.threads[t].pc.pid)).(rmutex := Some(t))
    case SweepRecheck(t) =>
      var pc := s.threads[t].pc;
      At(s, t, if PidLocked(s, pc.pid) then Cleared(pc.w) else Clearing(pc.w, pc.pid, pc.w.i))
    case SweepClear(t) =>
      var pc := s.threads[t].pc;
      At(s, t, pc.(j := pc.j + 1)).(slots := if s.slots[pc.j].pid == pc.pid then s.slots[pc.j := s.slots[pc.j].(pid := 0)] else s.slots)
    case SweepUnlock(t) => At(s, t, Sweeping(NextSlot(s.threads[t].pc.w))).(rmutex := None)
    case SweepEnd(t) => At(s, t, Idle)
  }

  function NextSlot(w: Sweep): Sweep { w.(i := w.i + 1) }

  /** A pid of another process, seen for the first time, is checked. */
  function Look(s: State, t: nat): Pc
    requires Runs(s, t) && s.threads[t].pc.Sweeping? && s.threads[t].pc.w.i < |s.slots|
  {
    var w := s.threads[t].pc.w;
    var pid := s.slots[w.i].pid;
    if pid == 0 || pid == Pid(s, t) || pid in w.seen then Sweeping(NextSlot(w))
    else if PidLocked(s, pid) then Sweeping(NextSlot(w.(seen := w.seen + {pid})))
    else Checked(w.(seen := w.seen + {pid}), pid)
  }

  // ----- Invariant -----

  predicate Mutexed(pc: Pc) { pc.Claiming? || pc.Claimed? || pc.Holding? || pc.Clearing? || pc.Cleared? }

  ghost predicate Inv(s: State) {
    && (forall p, q :: 0 <= p < q < |s.procs| && s.procs[p].alive && s.procs[q].alive ==> s.procs[p].pid != s.procs[q].pid)
    && (forall i :: 0 <= i < |s.slots| ==> SlotOk(s, s.slots[i]))
    && (forall t :: 0 <= t < |s.threads| ==> ThreadOk(s, t))
  }

  /** A slot of a live process has its pid, and the process holds the lock. */
  predicate SlotOk(s: State, slot: Slot) {
    slot.pid != 0 ==> slot.owner < |s.procs| && (s.procs[slot.owner].alive ==> Holds(s.procs[slot.owner], slot.pid))
  }

  /** A thread that runs and needs the mutex has it; one that clears finds only slots of dead processes. */
  ghost predicate ThreadOk(s: State, t: nat)
    requires t < |s.threads|
  {
    && s.threads[t].proc < |s.procs|
    && (Runs(s, t) && Mutexed(s.threads[t].pc) ==> s.rmutex == Some(t))
    && (Runs(s, t) && (s.threads[t].pc.Claiming? || s.threads[t].pc.Claimed?) ==> s.procs[s.threads[t].proc].locked)
    && (Runs(s, t) && s.threads[t].pc.Clearing? ==> OnlyDead(s, s.threads[t].pc.pid))
  }

  ghost predicate OnlyDead(s: State, pid: nat) {
    forall i :: 0 <= i < |s.slots| && s.slots[i].pid == pid && pid != 0 ==> !Live(s, s.slots[i])
  }

  predicate Live(s: State, slot: Slot) { slot.pid != 0 && slot.owner < |s.procs| && s.procs[slot.owner].alive }

  // ----- Steps keep the invariant -----

  lemma ProcsKept(s: State, step: Step)
    requires Inv(s) && Can(s, step)
    ensures |Do(s, step).procs| >= |s.procs|
    ensures forall p, q :: 0 <= p < q < |Do(s, step).procs| && Do(s, step).procs[p].alive && Do(s, step).procs[q].alive ==>
      Do(s, step).procs[p].pid != Do(s, step).procs[q].pid
    ensures forall p :: 0 <= p < |s.procs| && Do(s, step).procs[p].alive ==>
      s.procs[p].alive && s.procs[p].pid == Do(s, step).procs[p].pid && (s.procs[p].locked ==> Do(s, step).procs[p].locked)
  {
    hide PidLocked, ThreadOk, SlotOk;
  }

  lemma SlotStays(s: State, step: Step, slot: Slot)
    requires Inv(s) && Can(s, step) && SlotOk(s, slot)
    ensures SlotOk(Do(s, step), slot)
  {
    ProcsKept(s, step);
  }

  lemma SlotsKept(s: State, step: Step, i: nat)
    requires Inv(s) && Can(s, step) && i < |Do(s, step).slots|
    ensures SlotOk(Do(s, step), Do(s, step).slots[i])
  {
    hide PidLocked;
    var slot := Do(s, step).slots[i];
    if i < |s.slots| && slot == s.slots[i] {
      SlotStays(s, step, slot);
    } else {
      match step
      case Claim(t, _) => assert ThreadOk(s, t);
      case _ =>
    }
  }

  lemma NoClaim(s: State, step: Step, t: nat)
    requires Inv(s) && Can(s, step) && Runs(s, t) && s.threads[t].pc.Clearing?
    ensures !step.Claim?
  {
    assert ThreadOk(s, t);
    assert step.Claim? ==> ThreadOk(s, step.t);
  }

  /** While a thread clears with the mutex, no slot is claimed; so there are still only dead owners. */
  lemma OnlyDeadKept(s: State, step: Step, t: nat)
    requires Inv(s) && Can(s, step) && Runs(s, t) && s.threads[t].pc.Clearing?
    requires Runs(Do(s, step), t) && Do(s, step).threads[t].pc.Clearing?
    ensures OnlyDead(Do(s, step), s.threads[t].pc.pid)
  {
    hide PidLocked;
    var s', pid := Do(s, step), s.threads[t].pc.pid;
    assert ThreadOk(s, t);
    NoClaim(s, step, t);
    ProcsKept(s, step);
    forall i | 0 <= i < |s'.slots| && s'.slots[i].pid == pid && pid != 0 ensures !Live(s', s'.slots[i]) {
      assert s'.slots[i] == s.slots[i];
      assert SlotOk(s, s.slots[i]);
    }
  }

  /** The second check, under the mutex: whoever owns a slot with the pid is dead. */
  lemma RecheckedDead(s: State, pid: nat)
    requires Inv(s) && !PidLocked(s, pid)
    ensures OnlyDead(s, pid)
  {
    forall i | 0 <= i < |s.slots| && s.slots[i].pid == pid && pid != 0 ensures !Live(s, s.slots[i]) {
      assert SlotOk(s, s.slots[i]);
    }
  }

  lemma ThreadsKept(s: State, step: Step, t: nat)
    requires Inv(s) && Can(s, step) && t < |Do(s, step).threads|
    ensures ThreadOk(Do(s, step), t)
  {
    hide PidLocked, OnlyDead, Look;
    var s' := Do(s, step);
    ProcsKept(s, step);
    if t < |s.threads| {
      assert ThreadOk(s, t);
      OtherThread(s, step);
      LookClear(s, t);
      if Runs(s', t) && s'.threads[t].pc.Clearing? {
        if s.threads[t].pc.Clearing? {
          OnlyDeadKept(s, step, t);
        } else if step.SweepRecheck? {
          RecheckedDead(s, s.threads[t].pc.pid);
          SameSlots(s, s', s.threads[t].pc.pid);
        }
      }
    }
  }

  /** The thread that takes a step that needs the mutex has it. */
  lemma OtherThread(s: State, step: Step)
    requires Inv(s) && Can(s, step)
    ensures step.UnlockClaim? || step.SweepUnlock? || step.Claim? || step.SweepClear? || step.SweepRecheck? ==> s.rmutex == Some(step.t)
  {
    if step.UnlockClaim? || step.SweepUnlock? || step.Claim? || step.SweepClear? || step.SweepRecheck? { assert ThreadOk(s, step.t); }
  }

  lemma SameSlots(s: State, s': State, pid: nat)
    requires OnlyDead(s, pid) && s'.slots == s.slots && s'.procs == s.procs
    ensures OnlyDead(s', pid)
  {
  }

  lemma LookClear(s: State, t: nat)
    ensures Runs(s, t) && s.threads[t].pc.Sweeping? && s.threads[t].pc.w.i < |s.slots| ==> !Look(s, t).Clearing? && !Mutexed(Look(s, t))
  {
  }

  /** Every step keeps the invariant. */
  lemma StepKeeps(s: State, step: Step)
    requires Inv(s) && Can(s, step)
    ensures Inv(Do(s, step))
  {
    ProcsKept(s, step);
    forall i | 0 <= i < |Do(s, step).slots| ensures SlotOk(Do(s, step), Do(s, step).slots[i]) { SlotsKept(s, step, i); }
    forall t | 0 <= t < |Do(s, step).threads| ensures ThreadOk(Do(s, step), t) { ThreadsKept(s, step, t); }
  }

  // ----- Safety -----

  /** What a sweep clears is a slot whose process is dead, whoever has its pid now. */
  lemma ClearsOnlyDead(s: State, t: nat)
    requires Inv(s) && Can(s, SweepClear(t)) && Do(s, SweepClear(t)).slots != s.slots
    ensures var j := s.threads[t].pc.j;
      !Live(s, s.slots[j]) && Do(s, SweepClear(t)).slots == s.slots[j := s.slots[j].(pid := 0)]
  {
    assert ThreadOk(s, t);
  }

  predicate Releases(step: Step, i: nat, owner: nat) {
    (step.Release? && step.i == i) || (step.Death? && step.p == owner)
  }

  /** The slot of a live process stays its own until it gives it up or dies. */
  lemma LiveSlotStays(s: State, step: Step, i: nat)
    requires Inv(s) && Can(s, step) && i < |s.slots| && Live(s, s.slots[i]) && !Releases(step, i, s.slots[i].owner)
    ensures i < |Do(s, step).slots| && Do(s, step).slots[i] == s.slots[i] && Live(Do(s, step), s.slots[i])
  {
    hide PidLocked;
    if step.SweepClear? && Do(s, step).slots != s.slots { ClearsOnlyDead(s, step.t); }
  }

  /** A slot that is given up can be claimed again. */
  lemma GivenUp(s: State, t: nat, i: nat, u: nat)
    requires Can(s, Release(t, i)) && Runs(s, u) && s.threads[u].pc.Claiming?
    ensures Can(Do(s, Release(t, i)), Claim(u, i))
  {
  }

  ghost predicate Run(ss: seq<State>, steps: seq<Step>) {
    |ss| == |steps| + 1 && forall k :: 0 <= k < |steps| ==> Follows(ss[k], steps[k], ss[k + 1])
  }

  ghost predicate Follows(s: State, step: Step, s': State) { Can(s, step) && s' == Do(s, step) }

  predicate Empty(s: State) { s.procs == [] && s.slots == [] && s.threads == [] && s.rmutex == None }

  lemma {:induction false} RunKeeps(ss: seq<State>, steps: seq<Step>, n: nat)
    requires Run(ss, steps) && Empty(ss[0]) && n <= |steps|
    ensures Inv(ss[n])
    decreases n
  {
    if n > 0 {
      RunKeeps(ss, steps, n - 1);
      assert Follows(ss[n - 1], steps[n - 1], ss[n]);
      StepKeeps(ss[n - 1], steps[n - 1]);
    }
  }

  /** Over every run, with any number of sweeps and with pids that come back: a live process keeps its slot
    * while it neither gives it up nor dies. */
  lemma {:induction false} LiveSlotsSafe(ss: seq<State>, steps: seq<Step>, i: nat, m: nat, n: nat)
    requires Run(ss, steps) && Empty(ss[0]) && m <= n <= |steps| && i < |ss[m].slots| && Live(ss[m], ss[m].slots[i])
    requires forall k :: m <= k < n ==> !Releases(steps[k], i, ss[m].slots[i].owner)
    ensures i < |ss[n].slots| && ss[n].slots[i] == ss[m].slots[i] && Live(ss[n], ss[n].slots[i])
    decreases n
  {
    hide Inv, Can, Do, Live, Empty, Releases;
    if m < n {
      LiveSlotsSafe(ss, steps, i, m, n - 1);
      RunKeeps(ss, steps, n - 1);
      assert Follows(ss[n - 1], steps[n - 1], ss[n]);
      LiveSlotStays(ss[n - 1], steps[n - 1], i);
    }
  }

  // ----- Why the second check is needed -----

  function Gone(): Proc { Proc(5, false, false) }

  /** Process 0 with pid 5 has left slot 0 behind; process 1 sweeps and has found pid 5 unlocked. */
  function Scene(): State {
    State([Gone(), Proc(7, true, false)], [Slot(5, 0)], [Thread(0, Idle), Thread(1, Checked(Sweep(0, 1, {5}), 5))], None)
  }

  lemma SceneOk()
    ensures Inv(Scene()) && !PidLocked(Scene(), 5)
  {
  }

  /** Before the sweeper has the mutex, process 2 gets pid 5 and claims slot 1. */
  lemma Reused(s0: State) returns (s1: State, s2: State, s3: State)
    requires s0 == Scene()
    ensures Follows(s0, Birth(5), s1) && Follows(s1, Spawn(2), s2) && Follows(s2, PidSet(2), s3)
    ensures s3.procs == [Gone(), Proc(7, true, false), Proc(5, true, true)] && s3.slots == s0.slots && s3.rmutex == None
    ensures s3.threads == s0.threads + [Thread(2, Idle)]
  {
    s1 := Do(s0, Birth(5));
    s2 := Do(s1, Spawn(2));
    s3 := Do(s2, PidSet(2));
  }

  lemma Reclaimed(s3: State) returns (s4: State, s5: State, s6: State)
    requires s3.procs == [Gone(), Proc(7, true, false), Proc(5, true, true)] && s3.slots == [Slot(5, 0)] && s3.rmutex == None
    requires s3.threads == Scene().threads + [Thread(2, Idle)]
    ensures Follows(s3, LockClaim(2), s4) && Follows(s4, Claim(2, 1), s5) && Follows(s5, UnlockClaim(2), s6)
    ensures s6 == s3.(slots := [Slot(5, 0), Slot(5, 2)])
  {
    s4 := Do(s3, LockClaim(2));
    s5 := Do(s4, Claim(2, 1));
    s6 := Do(s5, UnlockClaim(2));
  }

  predicate FirstCheckPassed(s: State) {
    |s.threads| > 1 && s.threads[1].pc.Checked? && !PidLocked(s, s.threads[1].pc.pid)
  }

  predicate AboutToHitLive(s: State) {
    && |s.threads| > 1 && |s.slots| > 1 && s.threads[1].pc.Holding?
    && s.slots[1].pid == s.threads[1].pc.pid && Live(s, s.slots[1])
  }

  /** Clearing by what was checked without the mutex would hit a live process: after these steps from a
    * state in which the pid is rightly found unlocked, the sweeper has the mutex and the pid in hand, and
    * slot 1 of a live process has that pid. */
  lemma FirstCheckIsNotEnough() returns (ss: seq<State>, steps: seq<Step>)
    ensures Run(ss, steps) && Inv(ss[0]) && FirstCheckPassed(ss[0]) && AboutToHitLive(ss[|steps|])
  {
    hide Follows, Inv, PidLocked;
    SceneOk();
    var s0 := Scene();
    var s1, s2, s3 := Reused(s0);
    var s4, s5, s6 := Reclaimed(s3);
    var s7 := Locked(s6);
    ss := [s0, s1, s2, s3, s4, s5, s6, s7];
    steps := [Birth(5), Spawn(2), PidSet(2), LockClaim(2), Claim(2, 1), UnlockClaim(2), SweepLock(1)];
  }

  lemma Locked(s: State) returns (s': State)
    requires s.procs == [Gone(), Proc(7, true, false), Proc(5, true, true)] && s.rmutex == None
    requires s.threads == Scene().threads + [Thread(2, Idle)]
    ensures Follows(s, SweepLock(1), s') && s'.procs == s.procs && s'.slots == s.slots
    ensures |s'.threads| == 3 && s'.threads[1].pc == Holding(Sweep(0, 1, {5}), 5)
  {
    s' := Do(s, SweepLock(1));
  }

  // ----- The sweep itself -----

  predicate Rising(s: seq<nat>) { forall i, j :: 0 <= i < j < |s| ==> s[i] < s[j] }

  /** A list of pids: ids[0] counts them. */
  predicate IsList(ids: array<nat>)
    reads ids
  { ids.Length > 0 && ids[0] < ids.Length && Rising(ids[1..1 + ids[0]]) }

  function Listed(ids: array<nat>): set<nat>
    requires IsList(ids)
    reads ids
  { Members(ids[1..1 + ids[0]]) }

  function Members(s: seq<nat>): set<nat> { set x | x in s }

  /** The binary search of mdb_pid_insert. */
  method PidSearch(ids: array<nat>, pid: nat) returns (cursor: nat, found: bool)
    requires IsList(ids)
    ensures 1 <= cursor <= ids[0] + 1
    ensures found ==> cursor <= ids[0] && ids[cursor] == pid
    ensures !found ==> (forall i :: 1 <= i < cursor ==> ids[i] < pid) && (forall i :: cursor <= i <= ids[0] ==> ids[i] > pid)
  {
    ghost var s := ids[1..1 + ids[0]];
    assert forall i :: 1 <= i <= ids[0] ==> ids[i] == s[i - 1];
    var base: int, val: int, n: int := 0, 0, ids[0];
    cursor := 1;
    while 0 < n
      invariant 0 <= base && 0 <= n && base + n <= ids[0] && cursor >= 1
      invariant forall i :: 1 <= i <= base ==> ids[i] < pid
      invariant forall i :: base + n < i <= ids[0] ==> ids[i] > pid
      invariant val == 0 ==> cursor == 1 && base == 0 && n == ids[0]
      invariant val > 0 ==> cursor == base
      invariant val < 0 ==> cursor == base + n + 1
    {
      var pivot := n / 2;
      cursor := base + pivot + 1;
      val := pid - ids[cursor];
      assert ids[cursor] == s[cursor - 1];
      if val < 0 {
        n := pivot;
      } else if val > 0 {
        base := cursor;
        n := n - (pivot + 1);
      } else {
        return cursor, true;
      }
    }
    if val > 0 { cursor := cursor + 1; }
    found := false;
  }

  /** mdb_pid_insert: -1 for a pid that is in the list. */
  method PidInsert(ids: array<nat>, pid: nat) returns (rc: int)
    requires IsList(ids) && ids[0] + 1 < ids.Length
    modifies ids
    ensures IsList(ids) && Listed(ids) == old(Listed(ids)) + {pid}
    ensures rc == if pid in old(Listed(ids)) then -1 else 0
    ensures rc == -1 ==> ids[..] == old(ids[..])
    ensures rc == 0 ==> ids[0] == old(ids[0]) + 1
  {
    ghost var s := ids[1..1 + ids[0]];
    var cursor, found := PidSearch(ids, pid);
    assert forall i :: 1 <= i <= ids[0] ==> ids[i] == s[i - 1];
    if found {
      assert s[cursor - 1] == pid && pid in s;
      assert pid in Listed(ids) && Listed(ids) == Listed(ids) + {pid};
      return -1;
    }
    InsertedPid(s, cursor - 1, pid);
    assert ids[1..cursor] == s[..cursor - 1] && ids[cursor..1 + ids[0]] == s[cursor - 1..];
    InsertAt(ids, cursor, pid);
    rc := 0;
  }

  method InsertAt(ids: array<nat>, cursor: nat, pid: nat)
    requires ids.Length > 0 && ids[0] + 1 < ids.Length && 1 <= cursor <= ids[0] + 1
    modifies ids
    ensures ids[0] == old(ids[0]) + 1
    ensures ids[1..1 + ids[0]] == old(ids[1..cursor]) + [pid] + old(ids[cursor..1 + ids[0]])
  {
    ghost var m := ids[..];
    var n := ids[0] + 1;
    MoveUp(ids, cursor, n);
    ids[cursor], ids[0] := pid, n;
    Inserted(m, ids[..], cursor, pid);
  }

  lemma Inserted(m: seq<nat>, t: seq<nat>, cursor: nat, pid: nat)
    requires m != [] && |t| == |m| && m[0] + 1 < |m| && 1 <= cursor <= m[0] + 1 && t[0] == m[0] + 1 && t[cursor] == pid
    requires forall i :: 0 < i < cursor ==> t[i] == m[i]
    requires forall i :: cursor < i <= t[0] ==> t[i] == m[i - 1]
    ensures t[1..1 + t[0]] == m[1..cursor] + [pid] + m[cursor..1 + m[0]]
  {
  }

  method MoveUp(ids: array<nat>, cursor: nat, top: nat)
    requires 0 < cursor <= top < ids.Length
    modifies ids
    ensures forall i :: 0 <= i <= cursor || top < i < ids.Length ==> ids[i] == old(ids[i])
    ensures forall i :: cursor < i <= top ==> ids[i] == old(ids[i - 1])
  {
    var n := top;
    while n > cursor
      invariant cursor <= n <= top
      invariant forall i :: 0 <= i <= n || top < i < ids.Length ==> ids[i] == old(ids[i])
      invariant forall i :: n < i <= top ==> ids[i] == old(ids[i - 1])
    {
      ids[n] := ids[n - 1];
      n := n - 1;
    }
  }

  lemma InsertedPid(s: seq<nat>, i: nat, pid: nat)
    requires i <= |s| && Rising(s) && (forall k :: 0 <= k < i ==> s[k] < pid) && (forall k :: i <= k < |s| ==> s[k] > pid)
    ensures Rising(s[..i] + [pid] + s[i..]) && pid !in s
    ensures Members(s[..i] + [pid] + s[i..]) == Members(s) + {pid}
  {
    assert s == s[..i] + s[i..];
  }

  /** The pid of a slot after the sweep. */
  function Swept(pid: nat, me: nat, locked: set<nat>): nat { if pid != me && pid !in locked then 0 else pid }

  /** Clear the slots with a pid, from slot i on. */
  method ClearFrom(mr: array<nat>, i: nat, rdrs: nat, pid: nat)
    requires i <= rdrs <= mr.Length
    modifies mr
    ensures forall k :: i <= k < rdrs ==> mr[k] == if old(mr[k]) == pid then 0 else old(mr[k])
    ensures forall k :: 0 <= k < i || rdrs <= k < mr.Length ==> mr[k] == old(mr[k])
  {
    var j := i;
    while j < rdrs
      invariant i <= j <= rdrs
      invariant forall k :: i <= k < j ==> mr[k] == if old(mr[k]) == pid then 0 else old(mr[k])
      invariant forall k :: 0 <= k < i || j <= k < mr.Length ==> mr[k] == old(mr[k])
    {
      if mr[j] == pid { mr[j] := 0; }
      j := j + 1;
    }
  }

  /** mdb_reader_check0 while nothing else happens: exactly the slots of other processes that are gone are
    * cleared. */
  method ReaderCheck(mr: array<nat>, rdrs: nat, me: nat, locked: set<nat>)
    requires rdrs <= mr.Length
    modifies mr
    ensures forall i :: 0 <= i < rdrs ==> mr[i] == Swept(old(mr[i]), me, locked)
    ensures forall i :: rdrs <= i < mr.Length ==> mr[i] == old(mr[i])
  {
    var pids := new nat[rdrs + 2];
    pids[0] := 0;
    ghost var s := mr[..];
    assert Listed(pids) == {};
    var i := 0;
    while i < rdrs
      invariant 0 <= i <= rdrs && fresh(pids) && pids.Length == rdrs + 2 && IsList(pids) && pids[0] <= i
      invariant forall k :: 0 <= k < i ==> s[k] == 0 || s[k] == me || s[k] in Listed(pids)
      invariant forall k :: 0 <= k < rdrs ==> mr[k] == if s[k] in Listed(pids) then Swept(s[k], me, locked) else s[k]
      invariant forall k :: rdrs <= k < mr.Length ==> mr[k] == s[k]
      invariant me !in Listed(pids)
    {
      var pid := mr[i];
      if pid != 0 && pid != me {
        ghost var seen := Listed(pids);
        var rc := PidInsert(pids, pid);
        if rc == 0 && pid !in locked {
          ClearFrom(mr, i, rdrs, pid);
        }
      }
      i := i + 1;
    }
  }
}
