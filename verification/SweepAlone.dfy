/** A sweep for stale readers with nothing else in between comes to its end, and clears exactly the slots of other
  * processes that hold no lock. */
module SweepAlone {
  import opened ReaderSweep

  predicate Stale(s: State, pid: nat) { !PidLocked(s, pid) }

  /** What is left in slot k once the pids in `seen` have been dealt with. */
  function Left(s0: State, seen: set<nat>, k: nat): Slot
    requires k < |s0.slots|
  { if s0.slots[k].pid in seen && Stale(s0, s0.slots[k].pid) then s0.slots[k].(pid := 0) else s0.slots[k] }

  predicate LeftFrom(s0: State, s: State, seen: set<nat>, from: nat, to: nat) {
    |s.slots| == |s0.slots| && forall k :: from <= k < to <= |s0.slots| ==> s.slots[k] == Left(s0, seen, k)
  }

  /** The pids in the first n slots have been seen, but for that of the sweeper. */
  predicate SeenUpTo(s0: State, seen: set<nat>, n: nat, me: nat) {
    && me !in seen && 0 !in seen && n <= |s0.slots|
    && forall k :: 0 <= k < n ==> s0.slots[k].pid == 0 || s0.slots[k].pid == me || s0.slots[k].pid in seen
  }

  predicate NewPid(s0: State, w: Sweep, pid: nat, me: nat) {
    && w.i < |s0.slots| && w.rdrs == |s0.slots| && pid == s0.slots[w.i].pid && pid in w.seen && pid != 0 && pid != me && Stale(s0, pid)
    && SeenUpTo(s0, w.seen - {pid}, w.i, me)
  }

  /** Thread t sweeps, and all else is as in s0. */
  predicate Alone(s0: State, s: State, t: nat) {
    && Runs(s0, t) && s.procs == s0.procs && |s.threads| == |s0.threads| && s.threads[t].proc == s0.threads[t].proc
    && (forall u :: 0 <= u < |s.threads| && u != t ==> s.threads[u] == s0.threads[u]) && |s.slots| == |s0.slots|
  }

  predicate Sweeps(s0: State, s: State, t: nat) {
    && Alone(s0, s, t)
    && var me, n := Pid(s0, t), |s0.slots|;
       match s.threads[t].pc
       case Sweeping(w) => s.rmutex == None && w.rdrs == n && w.i <= n && SeenUpTo(s0, w.seen, w.i, me) && LeftFrom(s0, s, w.seen, 0, n)
       case Checked(w, pid) => s.rmutex == None && NewPid(s0, w, pid, me) && LeftFrom(s0, s, w.seen - {pid}, 0, n)
       case Holding(w, pid) => s.rmutex == Some(t) && NewPid(s0, w, pid, me) && LeftFrom(s0, s, w.seen - {pid}, 0, n)
       case Clearing(w, pid, j) =>
         s.rmutex == Some(t) && NewPid(s0, w, pid, me) && w.i <= j <= n
         && LeftFrom(s0, s, w.seen, 0, j) && LeftFrom(s0, s, w.seen - {pid}, j, n)
       case Idle => s.rmutex == None && forall k :: 0 <= k < n ==> s.slots[k] == AfterSweep(s0, t, k)
       case _ => false
  }

  /** Slot k after a sweep: that of another process is cleared if nobody holds the lock for its pid. */
  function AfterSweep(s0: State, t: nat, k: nat): Slot
    requires Runs(s0, t) && k < |s0.slots|
  { if s0.slots[k].pid == Pid(s0, t) || PidLocked(s0, s0.slots[k].pid) then s0.slots[k] else s0.slots[k].(pid := 0) }

  /** The next step of the sweep. */
  function NextStep(s: State, t: nat): Step
    requires t < |s.threads|
  {
    match s.threads[t].pc
    case Sweeping(w) => if w.i < w.rdrs then SweepLook(t) else SweepEnd(t)
    case Checked(_, _) => SweepLock(t)
    case Holding(_, _) => SweepRecheck(t)
    case Clearing(w, _, j) => if j < w.rdrs then SweepClear(t) else SweepUnlock(t)
    case _ => SweepUnlock(t)
  }

  function Todo(pc: Pc, n: nat): (nat, nat, nat) {
    match pc
    case Sweeping(w) => (if w.i <= n then n - w.i + 1 else 0, 3, 0)
    case Checked(w, _) => (if w.i <= n then n - w.i + 1 else 0, 2, 0)
    case Holding(w, _) => (if w.i <= n then n - w.i + 1 else 0, 1, 0)
    case Clearing(w, _, j) => (if w.i <= n then n - w.i + 1 else 0, 0, if j <= n then n - j + 1 else 0)
    case _ => (0, 0, 0)
  }

  predicate Less(a: (nat, nat, nat), b: (nat, nat, nat)) {
    a.0 < b.0 || (a.0 == b.0 && (a.1 < b.1 || (a.1 == b.1 && a.2 < b.2)))
  }

  lemma LookStep(s0: State, s: State, t: nat)
    requires Sweeps(s0, s, t) && s.threads[t].pc.Sweeping?
    ensures Can(s, NextStep(s, t)) && Sweeps(s0, Do(s, NextStep(s, t)), t)
    ensures Less(Todo(Do(s, NextStep(s, t)).threads[t].pc, |s0.slots|), Todo(s.threads[t].pc, |s0.slots|))
  {
    hide PidLocked;
    SameLocks(s0, s);
    var w := s.threads[t].pc.w;
    if w.i < w.rdrs { assert s.slots[w.i] == Left(s0, w.seen, w.i); }
  }

  lemma SameLocks(s0: State, s: State)
    requires s.procs == s0.procs
    ensures forall pid :: PidLocked(s, pid) <==> PidLocked(s0, pid)
  {
  }

  lemma CheckSteps(s0: State, s: State, t: nat)
    requires Sweeps(s0, s, t) && (s.threads[t].pc.Checked? || s.threads[t].pc.Holding?)
    ensures Can(s, NextStep(s, t)) && Sweeps(s0, Do(s, NextStep(s, t)), t)
    ensures Less(Todo(Do(s, NextStep(s, t)).threads[t].pc, |s0.slots|), Todo(s.threads[t].pc, |s0.slots|))
  {
    hide PidLocked;
    SameLocks(s0, s);
    if s.threads[t].pc.Holding? { NoneNew(s0, s.threads[t].pc.w, s.threads[t].pc.pid, Pid(s0, t)); }
  }

  /** Before slot i there is no slot with a pid seen there for the first time. */
  lemma NoneNew(s0: State, w: Sweep, pid: nat, me: nat)
    requires NewPid(s0, w, pid, me)
    ensures forall k :: 0 <= k < w.i ==> Left(s0, w.seen, k) == Left(s0, w.seen - {pid}, k)
  {
    hide PidLocked;
  }

  lemma ClearSteps(s0: State, s: State, t: nat)
    requires Sweeps(s0, s, t) && s.threads[t].pc.Clearing?
    ensures Can(s, NextStep(s, t)) && Sweeps(s0, Do(s, NextStep(s, t)), t)
    ensures Less(Todo(Do(s, NextStep(s, t)).threads[t].pc, |s0.slots|), Todo(s.threads[t].pc, |s0.slots|))
  {
    hide PidLocked;
    var w, pid, j := s.threads[t].pc.w, s.threads[t].pc.pid, s.threads[t].pc.j;
    if j < w.rdrs { assert s.slots[j] == Left(s0, w.seen - {pid}, j); }
  }

  /** mdb_reader_check0 on its own: it ends, and then a slot keeps its pid if and only if that is the sweeper's
    * own or one for which a live process holds the lock. */
  lemma SweepEnds(s0: State, t: nat) returns (ss: seq<State>, steps: seq<Step>)
    requires Runs(s0, t) && s0.threads[t].pc == Idle && s0.rmutex == None && Pid(s0, t) != 0
    ensures Run(ss, steps) && steps != [] && ss[0] == s0 && steps[0] == SweepStart(t)
    ensures var s := ss[|steps|];
      Alone(s0, s, t) && s.threads[t].pc == Idle && s.rmutex == None && forall k :: 0 <= k < |s0.slots| ==> s.slots[k] == AfterSweep(s0, t, k)
  {
    hide PidLocked, NewPid, LeftFrom, SeenUpTo;
    var s := Do(s0, SweepStart(t));
    ss, steps := [s0, s], [SweepStart(t)];
    StartsSweep(s0, t);
    while s.threads[t].pc != Idle
      invariant Run(ss, steps) && ss[0] == s0 && steps != [] && steps[0] == SweepStart(t) && s == ss[|steps|] && Sweeps(s0, s, t)
      decreases Todo(s.threads[t].pc, |s0.slots|).0, Todo(s.threads[t].pc, |s0.slots|).1, Todo(s.threads[t].pc, |s0.slots|).2
    {
      OneStep(s0, s, t);
      var s' := Do(s, NextStep(s, t));
      RunOn(ss, steps, NextStep(s, t), s');
      ss, steps, s := ss + [s'], steps + [NextStep(s, t)], s';
    }
  }

  lemma StartsSweep(s0: State, t: nat)
    requires Runs(s0, t) && s0.threads[t].pc == Idle && s0.rmutex == None && Pid(s0, t) != 0
    ensures Can(s0, SweepStart(t)) && Sweeps(s0, Do(s0, SweepStart(t)), t)
  {
  }

  lemma OneStep(s0: State, s: State, t: nat)
    requires Sweeps(s0, s, t) && s.threads[t].pc != Idle
    ensures Can(s, NextStep(s, t)) && Sweeps(s0, Do(s, NextStep(s, t)), t)
    ensures Less(Todo(Do(s, NextStep(s, t)).threads[t].pc, |s0.slots|), Todo(s.threads[t].pc, |s0.slots|))
  {
    hide Can, Do, NextStep, NewPid, LeftFrom, SeenUpTo, Less;
    match s.threads[t].pc {
      case Sweeping(_) => LookStep(s0, s, t);
      case Checked(_, _) => CheckSteps(s0, s, t);
      case Holding(_, _) => CheckSteps(s0, s, t);
      case Clearing(_, _, _) => ClearSteps(s0, s, t);
      case Idle =>
      case Claiming =>
      case Claimed =>
      case Cleared(_) =>
    }
  }

  lemma RunOn(ss: seq<State>, steps: seq<Step>, step: Step, s': State)
    requires Run(ss, steps) && Follows(ss[|steps|], step, s')
    ensures Run(ss + [s'], steps + [step])
  {
    hide Follows;
    var tt, more := ss + [s'], steps + [step];
    forall k | 0 <= k < |more| ensures Follows(tt[k], more[k], tt[k + 1]) {
      if k < |steps| { assert Follows(ss[k], steps[k], ss[k + 1]); }
    }
  }
}
