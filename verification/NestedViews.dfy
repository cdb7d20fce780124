/** What nested transactions see.  Spilling, reading back and copying pages goes unnoticed: every transaction
  * sees what it wrote, as if each had all its pages to itself, with a copy at its begin. */
module NestedViews {
  import opened NestedTxn

  datatype Option<+T> = None | Some(value: T)

  // ----- One step -----

  /** What a step puts on page q. */
  function PutsAt(step: Step, q: nat): Option<int> {
    match step
    case Alloc(p, c) => if q == p then Some(c) else None
    case Reuse(p, c) => if q == p then Some(c) else None
    case Write(p, c) => if q == p then Some(c) else None
    case _ => None
  }

  /** A page that is in no dirty list is read from the map. */
  lemma {:induction false} NotVisible(txns: seq<Txn>, disk: map<nat, int>, p: nat)
    requires p !in Visible(txns)
    ensures Get(txns, disk, p) == Mapped(disk, p)
  {
    if txns != [] && p !in Last(txns).spill { NotVisible(txns[..|txns| - 1], disk, p); }
  }

  lemma FlushedAt(disk: map<nat, int>, dirty: map<nat, int>, pages: set<nat>, q: nat)
    requires pages <= dirty.Keys
    ensures Mapped(Flushed(disk, dirty, pages), q) == if q in pages then dirty[q] else Mapped(disk, q)
  {
  }

  lemma SpillView(front: seq<Txn>, t: Txn, disk: map<nat, int>, pages: set<nat>, q: nat)
    requires TopOk(front, t) && pages <= t.dirty.Keys
    ensures Get(front + [t.(dirty := t.dirty - pages, spill := t.spill + pages, room := t.room + |pages|)], Flushed(disk, t.dirty, pages), q)
      == Get(front + [t], disk, q)
  {
    hide Get, Visible, Spilled, HeldWhereUsed, Flushed, Mapped;
    FlushedAt(disk, t.dirty, pages, q);
    var u, disk' := t.(dirty := t.dirty - pages, spill := t.spill + pages, room := t.room + |pages|), Flushed(disk, t.dirty, pages);
    GetTop(front, t, disk, q);
    GetTop(front, u, disk', q);
    if q !in pages { SameMapped(front, disk, disk', q); }
  }

  lemma UnspillView(front: seq<Txn>, t: Txn, disk: map<nat, int>, p: nat, q: nat)
    requires p !in Visible(front + [t])
    ensures Get(front + [t.(dirty := t.dirty[p := Mapped(disk, p)], spill := t.spill - {p}, room := t.room - 1)], disk, q) == Get(front + [t], disk, q)
  {
    hide Get, Visible;
    GetTop(front, t, disk, q);
    GetTop(front, t.(dirty := t.dirty[p := Mapped(disk, p)], spill := t.spill - {p}, room := t.room - 1), disk, q);
    NotVisible(front + [t], disk, p);
  }

  lemma TouchView(front: seq<Txn>, t: Txn, disk: map<nat, int>, p: nat, q: nat)
    requires TopOk(front, t) && p in Visible(front + [t])
    ensures Get(front + [t.(dirty := t.dirty[p := Get(front + [t], disk, p)])], disk, q) == Get(front + [t], disk, q)
  {
    hide Get, Visible, Spilled, HeldWhereUsed;
    VisibleTop(front, t);
    GetTop(front, t, disk, q);
    GetTop(front, t.(dirty := t.dirty[p := Get(front + [t], disk, p)]), disk, q);
  }

  /** Contents put on a page of the dirty list are what is found there. */
  lemma PutView(front: seq<Txn>, t: Txn, u: Txn, disk: map<nat, int>, p: nat, c: int, q: nat)
    requires u.dirty == t.dirty[p := c] && u.spill == t.spill && p !in t.spill
    ensures Get(front + [u], disk, q) == if q == p then c else Get(front + [t], disk, q)
  {
    hide Get;
    GetTop(front, t, disk, q);
    GetTop(front, u, disk, q);
  }

  lemma SameView(front: seq<Txn>, t: Txn, u: Txn, disk: map<nat, int>, q: nat)
    requires (forall p :: p == q ==> (p in t.dirty <==> p in u.dirty) && (p in t.dirty ==> u.dirty[p] == t.dirty[p])) && (q in t.spill <==> q in u.spill)
    ensures Get(front + [u], disk, q) == Get(front + [t], disk, q)
  {
    hide Get;
    GetTop(front, t, disk, q);
    GetTop(front, u, disk, q);
  }

  /** A page taken is not spilled, nor is one of the dirty list. */
  lemma NotSpilled(s: State, front: seq<Txn>, t: Txn, step: Step, p: nat)
    requires Inv(s) && Can(s, step) && s.txns == front + [t] && t == Top(s) && PutsAt(step, p).Some?
    ensures p !in t.spill
  {
    hide Visible, Spilled, HeldWhereUsed, Fresh;
    OkTop(front, t);
    if step.Alloc? {
      TakenIsFresh(s, step.p, step.c);
      VisibleTop(front, t);
    }
  }

  /** A step of a transaction, but for its begin and end: it sees what it writes, and else what it saw.  (A page
    * given back with Release is its own no longer.) */
  lemma StepView(s: State, step: Step, q: nat)
    requires Inv(s) && Can(s, step) && !Structural(step) && !(step.Release? && q == step.p)
    ensures var s' := Do(s, step);
      Get(s'.txns, s'.disk, q) == if PutsAt(step, q).Some? then PutsAt(step, q).value else Get(s.txns, s.disk, q)
  {
    hide Get, Visible, Spilled, Held, Fresh, Pool, Known, ListsOk;
    TopOf(s);
    OkTop(Front(s), Top(s));
    var front, t := Front(s), Top(s);
    match step
    case Alloc(p, c) =>
      NotSpilled(s, front, t, step, p);
      PutView(front, t, NewTop(s, step), s.disk, p, c, q);
    case Reuse(p, c) =>
      NotSpilled(s, front, t, step, p);
      PutView(front, t, NewTop(s, step), s.disk, p, c, q);
    case Write(p, c) =>
      NotSpilled(s, front, t, step, p);
      PutView(front, t, NewTop(s, step), s.disk, p, c, q);
    case Touch(p) => TouchView(front, t, s.disk, p, q);
    case Unspill(p) => UnspillView(front, t, s.disk, p, q);
    case Spill(pages) => SpillView(front, t, s.disk, pages, q);
    case Free(_) => SameView(front, t, NewTop(s, step), s.disk, q);
    case Release(_) => SameView(front, t, NewTop(s, step), s.disk, q);
    case Fetch(_, _) => SameView(front, t, NewTop(s, step), s.disk, q);
    case Begin =>
    case Commit =>
    case Abort =>
  }

  // ----- Over runs -----

  /** What a transaction is to its user: the pages it uses, and those it and the ones around it have freed. */
  datatype Ref = Ref(pages: map<nat, int>, gone: seq<nat>)

  predicate RefCan(r: seq<Ref>, step: Step) { if step.Commit? || step.Abort? then |r| >= 2 else r != [] }

  /** A nested transaction begins with a copy; at its end the copy takes the place of the original, or is
    * dropped. */
  function RefDo(r: seq<Ref>, step: Step): seq<Ref>
    requires RefCan(r, step)
  {
    var front, top := r[..|r| - 1], r[|r| - 1];
    match step
    case Alloc(p, c) => front + [top.(pages := top.pages[p := c])]
    case Reuse(p, c) => front + [top.(pages := top.pages[p := c])]
    case Write(p, c) => if p in top.pages then front + [top.(pages := top.pages[p := c])] else r
    case Free(p) => front + [Ref(top.pages - {p}, top.gone + [p])]
    case Release(p) => front + [top.(pages := top.pages - {p})]
    case Begin => r + [top]
    case Commit => r[..|r| - 2] + [top]
    case Abort => front
    case _ => r
  }

  function AllFreed(txns: seq<Txn>): seq<nat> {
    if txns == [] then [] else AllFreed(txns[..|txns| - 1]) + txns[|txns| - 1].freed
  }

  /** Transaction k sees the pages of r on those it uses. */
  ghost predicate SeesAt(txns: seq<Txn>, disk: map<nat, int>, r: Ref) {
    && txns != [] && r.pages.Keys == Last(txns).tree && r.gone == AllFreed(txns)
    && forall p :: p in r.pages ==> Get(txns, disk, p) == r.pages[p]
  }

  ghost predicate Sees(s: State, r: seq<Ref>) {
    |r| == |s.txns| && forall k :: 0 <= k < |r| ==> SeesAt(s.txns[..k + 1], s.disk, r[k])
  }

  lemma FreedTop(front: seq<Txn>, t: Txn)
    ensures AllFreed(front + [t]) == AllFreed(front) + t.freed
  {
    OnTop(front, t);
  }

  lemma SeesTop(s: State, r: seq<Ref>)
    requires Sees(s, r) && r != []
    ensures SeesAt(s.txns, s.disk, r[|r| - 1])
  {
    assert s.txns[..|r| - 1 + 1] == s.txns;
  }

  /** The transactions below the top one are as they were, and see what they saw. */
  lemma BelowSees(s: State, step: Step, r: seq<Ref>, k: nat)
    requires Inv(s) && Can(s, step) && Sees(s, r) && k + 1 < |s.txns| && k + 1 < |Do(s, step).txns| + (if step.Abort? then 1 else 0)
    ensures SeesAt(Do(s, step).txns[..k + 1], Do(s, step).disk, r[k])
  {
    hide Get, Inv, Can, Do, AllFreed;
    assert SeesAt(s.txns[..k + 1], s.disk, r[k]);
    SamePrefix(s, step, k + 1);
    assert Last(s.txns[..k + 1]) == s.txns[k];
    forall p | p in r[k].pages ensures Get(Do(s, step).txns[..k + 1], Do(s, step).disk, p) == r[k].pages[p] {
      AncestorsKeep(s, step, k + 1, p);
    }
  }

  lemma SamePrefix(s: State, step: Step, k: nat)
    requires Can(s, step) && 0 < k < |s.txns| && k < |Do(s, step).txns| + (if step.Abort? then 1 else 0)
    ensures k <= |Do(s, step).txns| && Do(s, step).txns[..k] == s.txns[..k]
  {
    hide Get, Visible, Spilled, Held, InTree, Known;
  }

  lemma TopSees(s: State, step: Step, r: Ref, front: seq<Ref>)
    requires Inv(s) && Can(s, step) && !Structural(step) && SeesAt(s.txns, s.disk, r)
    ensures RefCan(front + [r], step) && |RefDo(front + [r], step)| == |front| + 1
    ensures SeesAt(Do(s, step).txns, Do(s, step).disk, RefDo(front + [r], step)[|front|])
  {
    hide Get, Inv, Can, Do, AllFreed;
    var s', q := Do(s, step), RefDo(front + [r], step)[|front|];
    TopAfter(s, step);
    forall p | p in q.pages ensures Get(s'.txns, s'.disk, p) == q.pages[p] { StepView(s, step, p); }
  }

  /** The pages that the top transaction uses after a step, and those freed. */
  lemma TopAfter(s: State, step: Step)
    requires Inv(s) && Can(s, step) && !Structural(step)
    ensures s.txns != [] && Do(s, step).txns != []
    ensures Last(Do(s, step).txns).tree == match step
      case Alloc(p, _) => Last(s.txns).tree + {p}
      case Reuse(p, _) => Last(s.txns).tree + {p}
      case Free(p) => Last(s.txns).tree - {p}
      case Release(p) => Last(s.txns).tree - {p}
      case _ => Last(s.txns).tree
    ensures AllFreed(Do(s, step).txns) == AllFreed(s.txns) + if step.Free? then [step.p] else []
  {
    hide Get, Visible, Spilled, Held, Known, AllFreed, Inv;
    TopOf(s);
    FreedTop(Front(s), Top(s));
    FreedTop(Front(s), NewTop(s, step));
    OnTop(Front(s), NewTop(s, step));
  }

  lemma BeginSees(txns: seq<Txn>, t: Txn, disk: map<nat, int>, r: Ref, pg: PgState)
    requires txns != [] && t == Last(txns) && SeesAt(txns, disk, r)
    ensures SeesAt(txns + [Child(t, pg)], disk, r)
  {
    hide Get, AllFreed;
    var c := Child(t, pg);
    OnTop(txns, c);
    FreedTop(txns, c);
    forall p | p in r.pages ensures Get(txns + [c], disk, p) == r.pages[p] { GetTop(txns, c, disk, p); }
  }

  lemma CommitSees(s: State, r: Ref)
    requires Inv(s) && Can(s, Commit) && SeesAt(s.txns, s.disk, r)
    ensures SeesAt(Do(s, Commit).txns, Do(s, Commit).disk, r)
  {
    hide Get, AllFreed, Inv;
    TopTwo(s);
    var base, parent, t := s.txns[..|s.txns| - 2], s.txns[|s.txns| - 2], Top(s);
    OnTop(base, Merged(parent, t));
    OnTop(base + [parent], t);
    FreedTop(base + [parent], t);
    FreedTop(base, parent);
    FreedTop(base, Merged(parent, t));
    forall p | p in r.pages ensures Get(Do(s, Commit).txns, Do(s, Commit).disk, p) == r.pages[p] { CommitKeepsView(s, p); }
  }

  /** Every step is seen as the step on copies. */
  lemma StepRefines(s: State, step: Step, r: seq<Ref>)
    requires Inv(s) && Can(s, step) && Sees(s, r)
    ensures RefCan(r, step) && Sees(Do(s, step), RefDo(r, step))
  {
    hide SeesAt, Inv, Can, Do, RefDo;
    HowMany(s, step, r);
    SeesTop(s, r);
    var s', q, n := Do(s, step), RefDo(r, step), |r|;
    forall k | 0 <= k < |q| ensures SeesAt(s'.txns[..k + 1], s'.disk, q[k]) {
      if k + 1 < n && k + 1 < |q| + (if step.Abort? then 1 else 0) {
        BelowSees(s, step, r, k);
      } else {
        AtTop(s, step, r, k);
      }
    }
  }

  lemma HowMany(s: State, step: Step, r: seq<Ref>)
    requires Inv(s) && Can(s, step) && Sees(s, r)
    ensures r != [] && RefCan(r, step) && |RefDo(r, step)| == |Do(s, step).txns|
    ensures forall k :: 0 <= k < |r| - 1 && k + 1 < |RefDo(r, step)| + (if step.Abort? then 1 else 0) ==> RefDo(r, step)[k] == r[k]
    ensures step.Begin? ==> RefDo(r, step)[|r| - 1] == r[|r| - 1]
  {
    hide SeesAt, Get, Visible, Spilled, Held, Known, Ok, Fresh, Pool;
  }

  lemma AtBegin(s: State, r: seq<Ref>, k: nat)
    requires Can(s, Begin) && Sees(s, r) && r != [] && SeesAt(s.txns, s.disk, r[|r| - 1]) && |r| - 1 <= k <= |r|
    ensures SeesAt(Do(s, Begin).txns[..k + 1], s.disk, r[|r| - 1])
  {
    hide SeesAt, Get, Child;
    var txns := Do(s, Begin).txns;
    assert txns[..|txns|] == txns && txns[..|s.txns|] == s.txns;
    BeginSees(s.txns, Top(s), s.disk, r[|r| - 1], s.pg);
  }

  lemma AtCommit(s: State, r: seq<Ref>)
    requires Inv(s) && Can(s, Commit) && Sees(s, r) && r != [] && SeesAt(s.txns, s.disk, r[|r| - 1])
    ensures var s' := Do(s, Commit); |r| >= 2 && |s'.txns| == |r| - 1 && SeesAt(s'.txns[..|r| - 1], s'.disk, r[|r| - 1])
  {
    hide SeesAt, Get, Merged, Inv;
    var txns := Do(s, Commit).txns;
    assert txns[..|txns|] == txns;
    CommitSees(s, r[|r| - 1]);
  }

  lemma AtOther(s: State, step: Step, r: seq<Ref>)
    requires Inv(s) && Can(s, step) && !Structural(step) && Sees(s, r) && r != [] && SeesAt(s.txns, s.disk, r[|r| - 1])
    ensures var s' := Do(s, step); RefCan(r, step) && |RefDo(r, step)| == |r| == |s'.txns| && SeesAt(s'.txns[..|r|], s'.disk, RefDo(r, step)[|r| - 1])
  {
    hide SeesAt, Inv, Can, RefDo;
    HowMany(s, step, r);
    var txns := Do(s, step).txns;
    assert txns[..|txns|] == txns && r[..|r| - 1] + [r[|r| - 1]] == r;
    TopSees(s, step, r[|r| - 1], r[..|r| - 1]);
  }

  /** The transaction on top, and under a new one. */
  lemma AtTop(s: State, step: Step, r: seq<Ref>, k: nat)
    requires Inv(s) && Can(s, step) && Sees(s, r) && r != [] && RefCan(r, step) && SeesAt(s.txns, s.disk, r[|r| - 1])
    requires k < |RefDo(r, step)| == |Do(s, step).txns| && !(k + 1 < |r| && k + 1 < |RefDo(r, step)| + (if step.Abort? then 1 else 0))
    ensures SeesAt(Do(s, step).txns[..k + 1], Do(s, step).disk, RefDo(r, step)[k])
  {
    hide SeesAt, Inv, Can, Sees;
    if step.Begin? {
      AtBegin(s, r, k);
    } else if step.Commit? {
      AtCommit(s, r);
    } else if !step.Abort? {
      hide Do, RefDo;
      AtOther(s, step, r);
    }
  }

  // ----- Whole runs -----

  function RefAfter(r: seq<Ref>, steps: seq<Step>, n: nat): Option<seq<Ref>>
    requires n <= |steps|
  {
    if n == 0 then Some(r)
    else
      var q := RefAfter(r, steps, n - 1);
      if q.Some? && RefCan(q.value, steps[n - 1]) then Some(RefDo(q.value, steps[n - 1])) else None
  }

  /** Over every run, at any depth of nesting: each open transaction sees, on the pages it uses, exactly what the
    * same steps leave when each transaction has a copy of its own. */
  lemma {:induction false} RunRefines(ss: seq<State>, steps: seq<Step>, r: seq<Ref>, n: nat)
    requires Run(ss, steps) && Inv(ss[0]) && Sees(ss[0], r) && n <= |steps|
    ensures RefAfter(r, steps, n).Some? && Sees(ss[n], RefAfter(r, steps, n).value)
    decreases n
  {
    hide Inv, Can, Do, Sees, RefCan, RefDo;
    if n > 0 {
      RunRefines(ss, steps, r, n - 1);
      RunKeeps(ss, steps, n - 1);
      assert Follows(ss[n - 1], steps[n - 1], ss[n]);
      StepRefines(ss[n - 1], steps[n - 1], RefAfter(r, steps, n - 1).value);
    }
  }

  /** What the transactions of a state see to begin with. */
  function RefOf(s: State): (r: seq<Ref>)
    ensures |r| == |s.txns|
  {
    seq(|s.txns|, k requires 0 <= k < |s.txns| =>
      Ref(map p | p in s.txns[k].tree :: Get(s.txns[..k + 1], s.disk, p), AllFreed(s.txns[..k + 1])))
  }

  lemma SeesItself(s: State)
    ensures Sees(s, RefOf(s))
  {
    hide Get, AllFreed;
    forall k | 0 <= k < |s.txns| ensures SeesAt(s.txns[..k + 1], s.disk, RefOf(s)[k]) {
      assert Last(s.txns[..k + 1]) == s.txns[k];
    }
  }

  /** A transaction reads what it wrote: the page keeps these contents until the next step that puts others on
    * it, gives it back, or aborts a transaction, whatever is spilled, read back, begun or committed meanwhile. */
  lemma {:induction false} ReadsItsWrites(ss: seq<State>, steps: seq<Step>, m: nat, n: nat, q: nat, c: int)
    requires Run(ss, steps) && Inv(ss[0]) && m < n <= |steps| && PutsAt(steps[m], q) == Some(c)
    requires forall i :: m < i < n ==> PutsAt(steps[i], q) == None && !steps[i].Abort? && !(steps[i].Release? && steps[i].p == q)
    ensures Get(ss[n].txns, ss[n].disk, q) == c
    decreases n
  {
    hide Inv, Can, Do, Get;
    RunKeeps(ss, steps, n - 1);
    assert Follows(ss[n - 1], steps[n - 1], ss[n]);
    if n == m + 1 {
      StepView(ss[m], steps[m], q);
    } else {
      ReadsItsWrites(ss, steps, m, n - 1, q, c);
      AnyStepView(ss[n - 1], steps[n - 1], q);
    }
  }

  lemma AnyStepView(s: State, step: Step, q: nat)
    requires Inv(s) && Can(s, step) && PutsAt(step, q) == None && !step.Abort? && !(step.Release? && step.p == q)
    ensures Get(Do(s, step).txns, Do(s, step).disk, q) == Get(s.txns, s.disk, q)
  {
    hide Inv, Get, Visible, Spilled, Held, Known, Merged;
    if step.Begin? {
      GetTop(s.txns, Child(Top(s), s.pg), s.disk, q);
    } else if step.Commit? {
      CommitKeepsView(s, q);
    } else {
      StepView(s, step, q);
    }
  }

  // ----- No page is lost -----

  /** The pages that the innermost transaction has to do with: those it uses or may take, those freed, and those
    * on a list. */
  function Account(s: State): set<nat>
    requires s.txns != []
  { s.pg.pghead + Last(s.txns).tree + (set p | p in AllFreed(s.txns)) + Held(s.txns) }

  lemma AccountTop(front: seq<Txn>, t: Txn, disk: map<nat, int>, pg: PgState)
    ensures forall p :: p in Account(State(front + [t], disk, pg)) <==>
      p in pg.pghead || p in t.tree || p in AllFreed(front) || p in t.freed || p in Held(front) || p in t.dirty || p in t.spill
  {
    OnTop(front, t);
    FreedTop(front, t);
    VisibleTop(front, t);
  }

  lemma CommitLoses(s: State, p: nat)
    requires Inv(s) && Can(s, Commit) && p in Account(s)
    ensures Do(s, Commit).txns != [] && p in Account(Do(s, Commit))
  {
    hide Get, AllFreed, Held, Visible, Spilled, Ok, Fresh, Pool, Account;
    TopTwo(s);
    var base, parent, t := s.txns[..|s.txns| - 2], s.txns[|s.txns| - 2], Top(s);
    AccountTop(base + [parent], t, s.disk, s.pg);
    AccountTop(base, parent, s.disk, s.pg);
    AccountTop(base, Merged(parent, t), s.disk, s.pg);
    FreedTop(base, parent);
    VisibleTop(base, parent);
    TreeKept(parent, t);
  }

  lemma TreeKept(parent: Txn, t: Txn)
    ensures Merged(parent, t).tree == t.tree && Merged(parent, t).freed == parent.freed + t.freed
    ensures forall p :: p in parent.dirty || p in parent.spill || p in t.dirty || p in t.spill ==> p in Merged(parent, t).dirty || p in Merged(parent, t).spill
  {
  }

  lemma BeginLoses(s: State)
    requires Can(s, Begin)
    ensures Do(s, Begin).txns != [] && Account(s) <= Account(Do(s, Begin))
  {
    hide AllFreed, Held;
    TopOf(s);
    OnTop(s.txns, Child(Top(s), s.pg));
    FreedTop(s.txns, Child(Top(s), s.pg));
    VisibleTop(s.txns, Child(Top(s), s.pg));
  }

  /** No step but an abort loses a page, and what is read from the free database is added: every page stays in
    * use, free, freed, or on a list.  (An abort restores, as AbortRestores says.) */
  lemma NothingLost(s: State, step: Step)
    requires Inv(s) && Can(s, step) && !step.Abort?
    ensures s.txns != [] && Do(s, step).txns != [] && Account(s) <= Account(Do(s, step))
    ensures step.Fetch? ==> step.more <= Account(Do(s, step))
  {
    hide Get, AllFreed, Held, Visible, Spilled, Ok, Fresh, Pool, Known, Account, Can, Do;
    StillOpen(s, step);
    if step.Begin? {
      BeginLoses(s);
    } else if step.Commit? {
      forall p | p in Account(s) ensures p in Account(Do(s, step)) { CommitLoses(s, p); }
    } else {
      TopLoses(s, step);
    }
  }

  /** What a step takes away from one of the lists of the top transaction it adds to another. */
  lemma MovesOver(s: State, step: Step, p: nat)
    requires Can(s, step) && !Structural(step)
    requires p in s.pg.pghead || p in Top(s).tree || p in Top(s).freed || p in Top(s).dirty || p in Top(s).spill || (step.Fetch? && p in step.more)
    ensures var v := NewTop(s, step); p in NewPg(s, step).pghead || p in v.tree || p in v.freed || p in v.dirty || p in v.spill
  {
    hide Get, Visible, Spilled, Held, Known, Mapped;
  }

  lemma TopLoses(s: State, step: Step)
    requires Can(s, step) && !Structural(step)
    ensures Do(s, step).txns != [] && Account(s) <= Account(Do(s, step)) && (step.Fetch? ==> step.more <= Account(Do(s, step)))
  {
    hide Get, AllFreed, Held, Visible, Spilled, Known, Account, NewTop, NewPg, NewDisk, Can;
    StillOpen(s, step);
    var v := NewTop(s, step);
    TopOf(s);
    AccountTop(Front(s), Top(s), s.disk, s.pg);
    AccountTop(Front(s), v, NewDisk(s, step), NewPg(s, step));
    forall p | p in Account(s) || (step.Fetch? && p in step.more) ensures p in Account(Do(s, step)) {
      if !(p in AllFreed(Front(s)) || p in Held(Front(s))) { MovesOver(s, step, p); }
    }
  }

  /** Over every run without aborts. */
  lemma {:induction false} NothingLostOverRun(ss: seq<State>, steps: seq<Step>, m: nat, n: nat)
    requires Run(ss, steps) && Inv(ss[0]) && m <= n <= |steps| && forall i :: m <= i < n ==> !steps[i].Abort?
    ensures ss[m].txns != [] && ss[n].txns != [] && Account(ss[m]) <= Account(ss[n])
    decreases n
  {
    hide Can, Do, Account, Ok, Fresh, Pool;
    RunKeeps(ss, steps, m);
    RunKeeps(ss, steps, n);
    if m < n {
      NothingLostOverRun(ss, steps, m, n - 1);
      RunKeeps(ss, steps, n - 1);
      assert Follows(ss[n - 1], steps[n - 1], ss[n]);
      NothingLost(ss[n - 1], steps[n - 1]);
    }
  }
}
