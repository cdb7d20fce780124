/** The two threads of the compacting copy: the provider fills one buffer while the writer writes the
  * other one.  A step is what a thread does while it holds the mutex, or one access without it. */
module CopyPipe {

  /** A buffer and its overflow tail. */
  datatype Buffer = Buffer(main: seq<int>, tail: seq<int>) {
    function All(): seq<int> { main + tail }
  }

  /** The provider: filling a buffer; about to lock the mutex in mdb_env_cthr_toggle; testing whether both
    * buffers are in use; waiting for the condition; awake but without the mutex; past the unlock; waiting
    * for the writer thread to end. */
  datatype Provider = Fill | Lock(eof: bool) | Check(eof: bool) | Wait(eof: bool) | Woken(eof: bool) | Flip(eof: bool) | Join

  /** mdb_env_copythr: about to lock the mutex; testing mc_new; waiting; awake; writing, with `pos` of the
    * buffer and its tail written; ended. */
  datatype Writer = WLock | WCheck | WWait | WWoken | Writing(pos: nat) | WDone

  /** mc_new is `cnt`, plus MDB_EOF if `eof`.  `handed` and `done` are history: the buffers handed over
    * and how many of them the writer has returned. */
  datatype State = State(p: Provider, w: Writer, cnt: nat, eof: bool, bufs: seq<Buffer>, pt: nat, wt: nat, err: bool,
                         out: seq<int>, handed: seq<Buffer>, done: nat)

  datatype Step =
    | Put(x: int)            // the provider adds to its buffer
    | PutTail(t: seq<int>)   // and leaves an overflow tail
    | Decide(eof: bool)      // it calls mdb_env_cthr_toggle
    | Give                   // it locks the mutex, adjusts mc_new and signals
    | Test                   // it tests mc_new & 2
    | Return                 // it flips mc_toggle and resets mc_wlen
    | Fail                   // it sets mc_error
    | WGetLock               // the writer locks the mutex
    | WTest                  // it tests mc_new
    | WSome(n: nat)          // write() takes n items
    | WFail                  // write() fails
    | WReturn                // it returns the buffer and signals
    | PGetLock               // the provider locks the mutex after a wait
    | WRelock                // the writer does
    | PSpurious | WSpurious  // a wait ends without a signal

  predicate Start(s: State) {
    && s.p == Fill && s.w == WLock && s.cnt == 0 && !s.eof && |s.bufs| == 2 && s.pt == 0 && s.wt == 0 && !s.err
    && s.out == [] && s.handed == [] && s.done == 0 && s.bufs[0] == s.bufs[1] == Buffer([], [])
  }

  predicate PHolds(p: Provider) { p.Check? }
  predicate WHolds(w: Writer) { w.WCheck? || w.Writing? }
  predicate Free(s: State) { !PHolds(s.p) && !WHolds(s.w) }

  /** What the writer still has to write of its buffer. */
  predicate Wrote(s: State) { s.w.Writing? && s.wt < |s.bufs| && (s.err || s.w.pos >= |s.bufs[s.wt].All()|) }

  predicate Can(s: State, step: Step) {
    && |s.bufs| == 2 && s.pt < 2 && s.wt < 2
    && match step
       case Put(x) => s.p.Fill? && s.bufs[s.pt].tail == []
       case PutTail(t) => s.p.Fill? && s.bufs[s.pt].tail == []
       case Decide(eof) => s.p.Fill?
       case Give => s.p.Lock? && Free(s)
       case Test => s.p.Check?
       case Return => s.p.Flip?
       case Fail => s.p.Fill?
       case WGetLock => s.w.WLock? && Free(s)
       case WTest => s.w.WCheck?
       case WSome(n) => s.w.Writing? && !s.err && 0 < n && s.w.pos + n <= |s.bufs[s.wt].All()|
         && (s.w.pos < |s.bufs[s.wt].main| ==> s.w.pos + n <= |s.bufs[s.wt].main|)
       case WFail => s.w.Writing? && !s.err && s.w.pos < |s.bufs[s.wt].All()|
       case WReturn => Wrote(s) && s.cnt > 0
       case PGetLock => s.p.Woken? && Free(s)
       case WRelock => s.w.WWoken? && Free(s)
       case PSpurious => s.p.Wait?
       case WSpurious => s.w.WWait?
  }

  /** pthread_cond_signal: wake the other thread if it waits. */
  function SignalWriter(w: Writer): Writer { if w.WWait? then WWoken else w }
  function SignalProvider(p: Provider): Provider { if p.Wait? then Woken(p.eof) else p }

  function Do(s: State, step: Step): State
    requires Can(s, step)
  {
    match step
    case Put(x) => s.(bufs := s.bufs[s.pt := s.bufs[s.pt].(main := s.bufs[s.pt].main + [x])])
    case PutTail(t) => s.(bufs := s.bufs[s.pt := s.bufs[s.pt].(tail := t)])
    case Decide(eof) => s.(p := Lock(eof))
    case Give => s.(p := Check(s.p.eof), cnt := s.cnt + 1, eof := s.eof || s.p.eof, w := SignalWriter(s.w),
                    handed := s.handed + [s.bufs[s.pt]])
    case Test => s.(p := if s.cnt == 2 then Wait(s.p.eof) else Flip(s.p.eof))
    case Return => s.(p := if s.p.eof then Join else Fill, pt := 1 - s.pt,
                      bufs := s.bufs[1 - s.pt := s.bufs[1 - s.pt].(main := [])])
    case Fail => s.(err := true)
    case WGetLock => s.(w := WCheck)
    case WTest => s.(w := if s.cnt == 0 && !s.eof then WWait else if s.cnt == 0 then WDone else Writing(0))
    case WSome(n) => s.(w := Writing(s.w.pos + n), out := s.out + s.bufs[s.wt].All()[s.w.pos..s.w.pos + n])
    case WFail => s.(err := true)
    case WReturn => s.(w := WCheck, cnt := s.cnt - 1, wt := 1 - s.wt, p := SignalProvider(s.p), done := s.done + 1,
                       bufs := s.bufs[s.wt := Buffer([], [])])
    case PGetLock => s.(p := Check(s.p.eof))
    case WRelock => s.(w := WCheck)
    case PSpurious => s.(p := Woken(s.p.eof))
    case WSpurious => s.(w := WWoken)
  }

  // ----- Invariant -----

  function Concat(bs: seq<Buffer>): seq<int> {
    if bs == [] then [] else Concat(bs[..|bs| - 1]) + bs[|bs| - 1].All()
  }

  /** The provider has handed over its buffer and not yet turned to the other one. */
  predicate Given(p: Provider) { p.Check? || p.Wait? || p.Woken? || p.Flip? }

  const EMPTY := Buffer([], [])

  ghost predicate Inv(s: State) { Counts(s) && Contents(s) && Locks(s) }

  ghost predicate Counts(s: State) {
    && |s.bufs| == 2 && s.done <= |s.handed| && s.cnt == |s.handed| - s.done <= 2
    && s.wt == s.done % 2
    && s.pt == (if Given(s.p) then |s.handed| + 1 else |s.handed|) % 2
    && (s.p.Fill? || s.p.Lock? || s.p.Flip? ==> s.cnt <= 1)
    && (s.eof <==> s.p.Join? || (Given(s.p) && s.p.eof))
  }

  /** Buffers handed over are as they were; those that nobody uses are empty. */
  ghost predicate Contents(s: State)
    requires Counts(s)
  {
    && (forall i :: s.done <= i < |s.handed| ==> s.bufs[i % 2] == s.handed[i])
    && ((s.p.Fill? || s.p.Lock?) && s.cnt == 0 ==> s.bufs[1 - s.pt] == EMPTY)
    && (Given(s.p) && s.cnt <= 1 ==> s.bufs[1 - s.pt] == EMPTY)
    && (Given(s.p) && s.cnt == 0 ==> s.bufs[s.pt] == EMPTY)
  }

  /** The mutex has one owner, and a thread waits only for what the other one will signal. */
  ghost predicate Locks(s: State)
    requires Counts(s)
  {
    && !(PHolds(s.p) && WHolds(s.w))
    && (s.p.Wait? ==> s.cnt == 2)
    && (s.w.WWait? ==> s.cnt == 0 && !s.eof)
    && (s.w.Writing? ==> s.cnt > 0 && s.w.pos <= |s.bufs[s.wt].All()|)
    && (s.w.WDone? ==> s.cnt == 0 && s.eof)
  }

  /** What has been written: all returned buffers and part of the one being written; after an error, the
    * beginning of that. */
  ghost predicate Output(s: State)
    requires Counts(s) && Locks(s)
  {
    if s.err then s.out <= Concat(s.handed)
    else s.out == Concat(s.handed[..s.done]) + (if s.w.Writing? then s.bufs[s.wt].All()[..s.w.pos] else [])
  }

  lemma StartHolds(s: State)
    requires Start(s)
    ensures Inv(s) && Output(s)
  {
  }

  lemma ConcatMore(bs: seq<Buffer>, b: Buffer)
    ensures Concat(bs + [b]) == Concat(bs) + b.All()
  {
    assert (bs + [b])[..|bs|] == bs;
  }

  lemma {:induction false} ConcatPrefix(bs: seq<Buffer>, n: nat)
    requires n <= |bs|
    ensures Concat(bs[..n]) <= Concat(bs)
    decreases |bs|
  {
    if n < |bs| {
      var front := bs[..|bs| - 1];
      ConcatPrefix(front, n);
      assert front[..n] == bs[..n];
    } else {
      assert bs[..n] == bs;
    }
  }

  /** The provider never touches a buffer that the writer has not returned. */
  lemma BuffersApart(s: State, i: nat)
    requires Inv(s) && s.done <= i < |s.handed| && (s.p.Fill? || s.p.Lock? || s.p.Flip?)
    ensures if s.p.Flip? then i % 2 != 1 - s.pt else i % 2 != s.pt
  {
  }

  predicate Fills(step: Step) { step.Put? || step.PutTail? }
  predicate HandsOver(step: Step) { step.Give? || step.Return? || step.WReturn? }

  lemma GiveCounts(s: State)
    requires Inv(s) && Can(s, Give)
    ensures Counts(Do(s, Give))
  {
    hide Contents, Locks;
  }

  lemma ReturnCounts(s: State)
    requires Inv(s) && Can(s, Return)
    ensures Counts(Do(s, Return))
  {
    hide Contents, Locks;
  }

  lemma WReturnCounts(s: State)
    requires Inv(s) && Can(s, WReturn)
    ensures Counts(Do(s, WReturn))
  {
    hide Contents;
  }

  lemma OtherCounts(s: State, step: Step)
    requires Inv(s) && Can(s, step) && !HandsOver(step)
    ensures Counts(Do(s, step))
  {
    hide Contents;
  }

  lemma CountsKept(s: State, step: Step)
    requires Inv(s) && Can(s, step)
    ensures Counts(Do(s, step))
  {
    hide Inv, Can, Do, Counts;
    if step.Give? { GiveCounts(s); }
    else if step.Return? { ReturnCounts(s); }
    else if step.WReturn? { WReturnCounts(s); }
    else { OtherCounts(s, step); }
  }

  lemma FillKeepsContents(s: State, step: Step)
    requires Inv(s) && Can(s, step) && Counts(Do(s, step)) && Fills(step)
    ensures Contents(Do(s, step))
  {
    forall i | s.done <= i < |s.handed| ensures Do(s, step).bufs[i % 2] == s.handed[i] { BuffersApart(s, i); }
  }

  lemma GiveKeepsContents(s: State)
    requires Inv(s) && Can(s, Give) && Counts(Do(s, Give))
    ensures Contents(Do(s, Give))
  {
  }

  lemma ReturnKeepsContents(s: State)
    requires Inv(s) && Can(s, Return) && Counts(Do(s, Return))
    ensures Contents(Do(s, Return))
  {
    forall i | s.done <= i < |s.handed| ensures Do(s, Return).bufs[i % 2] == s.handed[i] { BuffersApart(s, i); }
  }

  lemma WReturnKeepsContents(s: State)
    requires Inv(s) && Can(s, WReturn) && Counts(Do(s, WReturn))
    ensures Contents(Do(s, WReturn))
  {
  }

  lemma OtherKeepsContents(s: State, step: Step)
    requires Inv(s) && Can(s, step) && Counts(Do(s, step)) && !Fills(step) && !HandsOver(step)
    ensures Contents(Do(s, step))
  {
  }

  lemma ContentsKept(s: State, step: Step)
    requires Inv(s) && Can(s, step) && Counts(Do(s, step))
    ensures Contents(Do(s, step))
  {
    hide Contents, Locks, Can, Do, Counts;
    if Fills(step) { FillKeepsContents(s, step); }
    else if step.Give? { GiveKeepsContents(s); }
    else if step.Return? { ReturnKeepsContents(s); }
    else if step.WReturn? { WReturnKeepsContents(s); }
    else { OtherKeepsContents(s, step); }
  }

  lemma LocksKept(s: State, step: Step)
    requires Inv(s) && Can(s, step) && Counts(Do(s, step))
    ensures Locks(Do(s, step))
  {
    if s.cnt > 0 && (s.p.Fill? || s.p.Lock? || s.p.Flip?) { BuffersApart(s, s.done); }
  }

  /** Every step keeps the invariant. */
  lemma StepKeeps(s: State, step: Step)
    requires Inv(s) && Can(s, step)
    ensures Inv(Do(s, step))
  {
    CountsKept(s, step);
    ContentsKept(s, step);
    LocksKept(s, step);
  }

  // ----- The output -----

  /** What has been written is the beginning of all that was handed over. */
  lemma OutputIsPrefix(s: State)
    requires Inv(s) && Output(s)
    ensures s.out <= Concat(s.handed)
  {
    hide Concat, Buffer.All, Contents;
    if !s.err {
      if s.w.Writing? {
        BeingWritten(s);
        var b := s.bufs[s.wt];
        assert s.handed[..s.done + 1] == s.handed[..s.done] + [b];
        ConcatMore(s.handed[..s.done], b);
        ConcatPrefix(s.handed, s.done + 1);
        PartOf(Concat(s.handed[..s.done]), b.All(), s.w.pos, Concat(s.handed));
      } else {
        ConcatPrefix(s.handed, s.done);
      }
    }
  }

  lemma BeingWritten(s: State)
    requires Inv(s) && s.w.Writing?
    ensures s.done < |s.handed| && s.bufs[s.wt] == s.handed[s.done] && s.w.pos <= |s.bufs[s.wt].All()|
  {
  }

  lemma PartOf(a: seq<int>, b: seq<int>, n: nat, all: seq<int>)
    requires a + b <= all && n <= |b|
    ensures a + b[..n] <= all
  {
    assert a + b[..n] == (a + b)[..|a| + n];
  }

  lemma OutputGive(s: State)
    requires Inv(s) && Output(s) && Can(s, Give) && Inv(Do(s, Give))
    ensures Output(Do(s, Give))
  {
    hide Contents, Concat;
    ConcatMore(s.handed, s.bufs[s.pt]);
    assert (s.handed + [s.bufs[s.pt]])[..s.done] == s.handed[..s.done];
  }

  lemma OutputSome(s: State, n: nat)
    requires Inv(s) && Output(s) && Can(s, WSome(n)) && Inv(Do(s, WSome(n)))
    ensures Output(Do(s, WSome(n)))
  {
    hide Contents, Concat, Buffer.All;
    var all, pos := s.bufs[s.wt].All(), s.w.pos;
    assert all[..pos + n] == all[..pos] + all[pos..pos + n];
  }

  lemma OutputReturn(s: State)
    requires Inv(s) && Output(s) && Can(s, WReturn) && Inv(Do(s, WReturn))
    ensures Output(Do(s, WReturn))
  {
    hide Concat, Buffer.All, Contents;
    if !s.err {
      BeingWritten(s);
      var b := s.bufs[s.wt];
      assert b == s.handed[s.done] && b.All()[..s.w.pos] == b.All();
      assert s.handed[..s.done + 1] == s.handed[..s.done] + [b];
      ConcatMore(s.handed[..s.done], b);
    }
  }

  lemma StepOutput(s: State, step: Step)
    requires Inv(s) && Output(s) && Can(s, step)
    ensures Inv(Do(s, step)) && Output(Do(s, step))
  {
    StepKeeps(s, step);
    match step
    case Give => OutputGive(s);
    case WSome(n) => OutputSome(s, n);
    case WReturn => OutputReturn(s);
    case Fail => OutputIsPrefix(s);
    case WFail => OutputIsPrefix(s);
    case Put(_) => if s.w.Writing? { BuffersApart(s, s.done); }
    case PutTail(_) => if s.w.Writing? { BuffersApart(s, s.done); }
    case Return => if s.w.Writing? { BuffersApart(s, s.done); }
    case _ =>
  }

  // ----- Runs -----

  ghost predicate Follows(s: State, step: Step, s': State) { Can(s, step) && s' == Do(s, step) }

  ghost predicate Run(ss: seq<State>, steps: seq<Step>) {
    |ss| == |steps| + 1 && Start(ss[0]) && forall i :: 0 <= i < |steps| ==> Follows(ss[i], steps[i], ss[i + 1])
  }

  /** Over every run: the output is a beginning of what was handed over, buffer by buffer in order, each
    * followed by its tail. */
  lemma {:induction false} RunKeeps(ss: seq<State>, steps: seq<Step>, n: nat)
    requires Run(ss, steps) && n <= |steps|
    ensures Inv(ss[n]) && Output(ss[n])
    decreases n
  {
    hide Inv, Output, Can, Do, Start;
    if n == 0 {
      StartHolds(ss[0]);
    } else {
      RunKeeps(ss, steps, n - 1);
      assert Follows(ss[n - 1], steps[n - 1], ss[n]);
      StepOutput(ss[n - 1], steps[n - 1]);
    }
  }

  predicate Ended(s: State) { s.p.Join? && s.w.WDone? }

  // ----- No deadlock -----

  predicate Spurious(step: Step) { step.PSpurious? || step.WSpurious? }

  /** A step that a thread can take. */
  function Next(s: State): Step {
    if s.p.Check? then Test
    else if s.p.Flip? then Return
    else if s.p.Fill? then Decide(true)
    else if s.w.WCheck? then WTest
    else if s.w.Writing? then
      (if Wrote(s) then WReturn else WSome(1))
    else if s.p.Lock? then Give
    else if s.p.Woken? then PGetLock
    else if s.w.WLock? then WGetLock
    else WRelock
  }

  lemma CanGoOn(s: State)
    requires Inv(s) && !Ended(s)
    ensures Can(s, Next(s)) && !Spurious(Next(s))
  {
  }

  /** In every run: unless both are through, one of the threads can go on, without waking up by chance. */
  lemma NoDeadlock(ss: seq<State>, steps: seq<Step>, n: nat)
    requires Run(ss, steps) && n <= |steps| && !Ended(ss[n])
    ensures Can(ss[n], Next(ss[n])) && !Spurious(Next(ss[n]))
  {
    hide Inv, Output, Can, Next;
    RunKeeps(ss, steps, n);
    CanGoOn(ss[n]);
  }

  /** In every run: what was handed over and is not returned is still as it was. */
  lemma BuffersKept(ss: seq<State>, steps: seq<Step>, n: nat, i: nat)
    requires Run(ss, steps) && n <= |steps| && ss[n].done <= i < |ss[n].handed|
    ensures i % 2 < |ss[n].bufs| && ss[n].bufs[i % 2] == ss[n].handed[i]
  {
    RunKeeps(ss, steps, n);
  }

  // ----- What was put in -----

  function Adds(step: Step): seq<int> {
    match step case Put(x) => [x] case PutTail(t) => t case _ => []
  }

  /** All that the provider has put into buffers, in order. */
  function AllPut(steps: seq<Step>, n: nat): seq<int>
    requires n <= |steps|
  { if n == 0 then [] else AllPut(steps, n - 1) + Adds(steps[n - 1]) }

  /** What is in the provider's buffer and not handed over. */
  function Pending(s: State): seq<int> {
    if (s.p.Fill? || s.p.Lock?) && s.pt < |s.bufs| then s.bufs[s.pt].All() else []
  }

  lemma FillAdds(s: State, step: Step)
    requires Can(s, step) && Fills(step)
    ensures Do(s, step).handed == s.handed && Pending(Do(s, step)) == Pending(s) + Adds(step)
  {
  }

  lemma GiveMoves(s: State)
    requires Can(s, Give)
    ensures Concat(Do(s, Give).handed) == Concat(s.handed) + Pending(s) && Pending(Do(s, Give)) == []
  {
    hide Concat;
    ConcatMore(s.handed, s.bufs[s.pt]);
  }

  lemma ReturnAdds(s: State)
    requires Inv(s) && Can(s, Return)
    ensures Do(s, Return).handed == s.handed && Pending(Do(s, Return)) == [] == Pending(s)
  {
    hide Locks;
  }

  lemma WReturnAdds(s: State)
    requires Inv(s) && Can(s, WReturn)
    ensures Do(s, WReturn).handed == s.handed && Pending(Do(s, WReturn)) == Pending(s)
  {
    hide Contents, Locks, Counts;
    if s.p.Fill? || s.p.Lock? { WritersBuffer(s); }
  }

  lemma OtherAdds(s: State, step: Step)
    requires Can(s, step) && !Fills(step) && !HandsOver(step)
    ensures Do(s, step).handed == s.handed && Pending(Do(s, step)) == Pending(s) && Adds(step) == []
  {
  }

  lemma PutsStep(s: State, step: Step)
    requires Inv(s) && Can(s, step)
    ensures Concat(Do(s, step).handed) + Pending(Do(s, step)) == Concat(s.handed) + Pending(s) + Adds(step)
  {
    hide Concat, Inv, Can, Do, Pending;
    if Fills(step) { FillAdds(s, step); }
    else if step.Give? { GiveMoves(s); }
    else if step.Return? { ReturnAdds(s); }
    else if step.WReturn? { WReturnAdds(s); }
    else { OtherAdds(s, step); }
  }

  /** The writer returns another buffer than the provider fills. */
  lemma WritersBuffer(s: State)
    requires Inv(s) && Can(s, WReturn) && (s.p.Fill? || s.p.Lock?)
    ensures s.wt != s.pt && Do(s, WReturn).bufs[s.pt] == s.bufs[s.pt]
  {
    BuffersApart(s, s.done);
  }

  /** Over every run: what was handed over, with what is still in the provider's buffer, is what it put in. */
  lemma {:induction false} PutsKept(ss: seq<State>, steps: seq<Step>, n: nat)
    requires Run(ss, steps) && n <= |steps|
    ensures Concat(ss[n].handed) + Pending(ss[n]) == AllPut(steps, n)
    decreases n
  {
    hide Inv, Can, Do, Pending, Concat;
    if n == 0 {
      NonePut(ss[0]);
    } else {
      PutsKept(ss, steps, n - 1);
      RunKeeps(ss, steps, n - 1);
      assert Follows(ss[n - 1], steps[n - 1], ss[n]);
      PutsStep(ss[n - 1], steps[n - 1]);
    }
  }

  /** When both threads are through without an error, everything the provider put in was written; after an
    * error, a beginning of it. */
  lemma EndComplete(ss: seq<State>, steps: seq<Step>, n: nat)
    requires Run(ss, steps) && n <= |steps| && Ended(ss[n])
    ensures if ss[n].err then ss[n].out <= AllPut(steps, n) else ss[n].out == AllPut(steps, n)
  {
    RunKeeps(ss, steps, n);
    PutsKept(ss, steps, n);
    assert ss[n].handed[..ss[n].done] == ss[n].handed;
  }

  lemma ErrStep(s: State, step: Step)
    requires Can(s, step)
    ensures Do(s, step).err <==> s.err || step.Fail? || step.WFail?
  {
  }

  predicate Fails(steps: seq<Step>, n: nat)
    requires n <= |steps|
  { exists i :: 0 <= i < n && (steps[i].Fail? || steps[i].WFail?) }

  /** Over every run: an error is reported if and only if one of the threads had one. */
  lemma {:induction false} ErrorsReported(ss: seq<State>, steps: seq<Step>, n: nat)
    requires Run(ss, steps) && n <= |steps|
    ensures ss[n].err <==> Fails(steps, n)
    decreases n
  {
    hide Can, Do;
    if n > 0 {
      ErrorsReported(ss, steps, n - 1);
      assert Follows(ss[n - 1], steps[n - 1], ss[n]);
      ErrStep(ss[n - 1], steps[n - 1]);
    }
  }

  lemma NonePut(s: State)
    requires Start(s)
    ensures Concat(s.handed) + Pending(s) == []
  {
  }

  // ----- The end -----

  function Sizes(bs: seq<Buffer>): nat { if bs == [] then 0 else |bs[0].All()| + Sizes(bs[1..]) }

  function WriterLeft(w: Writer): nat {
    match w case WLock => 4 case WWoken => 4 case WCheck => 3 case Writing(_) => 2 case WWait => 1 case WDone => 0
  }

  function ProviderLeft(p: Provider): nat {
    match p case Fill => 6 case Lock(_) => 5 case Woken(_) => 4 case Check(_) => 3 case Wait(_) => 2 case Flip(_) => 2 case Join => 1
  }

  /** At most this many steps are left once MDB_EOF was given: what is still to be written, and a few steps
    * for each buffer. */
  function StepsLeft(s: State): int
    requires s.done <= |s.handed|
  {
    Sizes(s.handed[s.done..]) - (if s.w.Writing? then s.w.pos else 0) + (if s.err then 0 else 1) + 4 * s.cnt +
    WriterLeft(s.w) + ProviderLeft(s.p)
  }

  lemma SizesNext(s: State)
    requires Inv(s)
    ensures s.cnt > 0 ==> Sizes(s.handed[s.done..]) == |s.bufs[s.wt].All()| + Sizes(s.handed[s.done + 1..])
    ensures StepsLeft(s) >= 0
  {
    if s.cnt > 0 { assert s.handed[s.done..][1..] == s.handed[s.done + 1..]; }
  }

  /** After MDB_EOF every step but waking up by chance leaves fewer. */
  lemma EofEnds(s: State, step: Step)
    requires Inv(s) && s.eof && Can(s, step) && !Spurious(step)
    ensures Inv(Do(s, step)) && Do(s, step).eof && StepsLeft(Do(s, step)) < StepsLeft(s)
  {
    hide Contents, Sizes;
    StepKeeps(s, step);
    SizesNext(s);
  }

  /** So a run in which nobody wakes up by chance goes on after MDB_EOF for no longer than that. */
  lemma {:induction false} RunEnds(ss: seq<State>, steps: seq<Step>, m: nat, n: nat)
    requires Run(ss, steps) && m <= n <= |steps| && ss[m].eof && forall i :: m <= i < n ==> !Spurious(steps[i])
    ensures Inv(ss[m]) && Inv(ss[n]) && ss[n].eof && 0 <= StepsLeft(ss[n]) <= StepsLeft(ss[m]) - (n - m)
    decreases n
  {
    hide Inv, StepsLeft, Output;
    RunKeeps(ss, steps, m);
    if n > m {
      RunEnds(ss, steps, m, n - 1);
      assert Follows(ss[n - 1], steps[n - 1], ss[n]);
      EofEnds(ss[n - 1], steps[n - 1]);
    }
    SizesNext(ss[n]);
  }
}
