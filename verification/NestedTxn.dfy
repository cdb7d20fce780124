/** Nested write transactions: each has its own dirty pages and spill list over those of its ancestors. */
module NestedTxn {

  const UM_MAX: int := 0x1_FFFF  // entries in a dirty list

  /** me_pgstate: what mdb_page_alloc has read of the free database. */
  datatype PgState = PgState(pghead: set<nat>, pglast: nat)

  /** `tree` holds the pages that the transaction's databases use; `saved` is mnt_pgstate. */
  datatype Txn = Txn(dirty: map<nat, int>, spill: set<nat>, room: int, freed: seq<nat>, next: nat,
                     tree: set<nat>, saved: PgState)

  /** Open transactions, the top-level one first; the contents of pages in the map; me_pgstate. */
  datatype State = State(txns: seq<Txn>, disk: map<nat, int>, pg: PgState)

  function Mapped(disk: map<nat, int>, p: nat): int { if p in disk then disk[p] else 0 }

  /** mdb_page_get: each transaction's spill list, then its dirty list, then its parent; in the end the map. */
  function Get(txns: seq<Txn>, disk: map<nat, int>, p: nat): int {
    if txns == [] then Mapped(disk, p)
    else
      var t := txns[|txns| - 1];
      if p in t.spill then Mapped(disk, p)
      else if p in t.dirty then t.dirty[p]
      else Get(txns[..|txns| - 1], disk, p)
  }

  /** The pages that mdb_page_get finds in a dirty list. */
  function Visible(txns: seq<Txn>): set<nat> {
    if txns == [] then {} else
      var t := txns[|txns| - 1];
      (Visible(txns[..|txns| - 1]) - t.spill) + t.dirty.Keys
  }

  /** Pages on a spill list, and pages on any list. */
  function Spilled(txns: seq<Txn>): set<nat> {
    if txns == [] then {} else Spilled(txns[..|txns| - 1]) + txns[|txns| - 1].spill
  }

  function Held(txns: seq<Txn>): set<nat> {
    if txns == [] then {} else Held(txns[..|txns| - 1]) + txns[|txns| - 1].dirty.Keys + txns[|txns| - 1].spill
  }

  // ----- What a transaction may do -----

  datatype Step =
    | Alloc(p: nat, c: int)             // a page taken from the free pages or the end of the map
    | Touch(p: nat)                     // mdb_page_touch on an ancestor's dirty page
    | Unspill(p: nat)                   // mdb_page_unspill
    | Write(p: nat, c: int)
    | Spill(pages: set<nat>)            // mdb_page_spill
    | Free(p: nat)                      // a page no longer used
    | Reuse(p: nat, c: int)             // a loose page used again
    | Release(p: nat)                   // mdb_ovpage_free of a dirty or spilled overflow page
    | Fetch(more: set<nat>, pglast: nat) // mdb_page_alloc reads records of the free database
    | Begin
    | Commit
    | Abort

  function Top(s: State): Txn
    requires s.txns != []
  { s.txns[|s.txns| - 1] }

  function Front(s: State): seq<Txn>
    requires s.txns != []
  { s.txns[..|s.txns| - 1] }

  /** A page on a list or in use.  A run of overflow pages counts as its first page, as it does on the lists. */
  predicate Known(txns: seq<Txn>, p: nat) { p in Held(txns) || InTree(txns, p) }

  predicate InTree(txns: seq<Txn>, p: nat) { exists i :: 0 <= i < |txns| && p in txns[i].tree }

  /** Begin, Commit and Abort here are those of a nested transaction.  A page is taken from me_pghead, to which
    * the free database adds pages that nobody uses, or from the end of the map. */
  predicate Can(s: State, step: Step) {
    && s.txns != []
    && var t := Top(s);
       match step
       case Alloc(p, c) => t.room > 0 && (p in s.pg.pghead || p >= t.next)
       case Touch(p) => p !in t.dirty && p in Visible(s.txns)
       case Unspill(p) => t.room > 0 && p !in Visible(s.txns) && p in Spilled(s.txns)
       case Write(p, c) => p in t.dirty
       case Spill(pages) => pages <= t.dirty.Keys && pages !! Spilled(Front(s))
       case Free(p) => p in t.tree
       case Reuse(p, c) => p in t.dirty && p !in t.tree
       case Release(p) => |s.txns| == 1 && s.pg.pglast > 0 && p in t.tree && (p in t.dirty || p in t.spill)
       case Fetch(more, pglast) => forall p :: p in more ==> !Known(s.txns, p)
       case Begin => true
       case Commit => |s.txns| >= 2
       case Abort => |s.txns| >= 2
  }

  function Child(parent: Txn, pg: PgState): Txn {
    Txn(map[], {}, parent.room, [], parent.next, parent.tree, pg)
  }

  /** mdb_txn_commit of a nested transaction: its lists are merged into its parent's. */
  function Merged(parent: Txn, child: Txn): Txn {
    Txn((parent.dirty - child.spill) + child.dirty, (parent.spill - child.dirty.Keys) + child.spill,
        child.room, parent.freed + child.freed, child.next, child.tree, parent.saved)
  }

  function Flushed(disk: map<nat, int>, dirty: map<nat, int>, pages: set<nat>): map<nat, int> {
    disk + (map p | p in dirty && p in pages :: dirty[p])
  }

  predicate Structural(step: Step) { step.Begin? || step.Commit? || step.Abort? }

  /** The transaction on top after a step. */
  function NewTop(s: State, step: Step): Txn
    requires Can(s, step) && !Structural(step)
  {
    var t := Top(s);
    match step
    case Alloc(p, c) =>
      t.(dirty := t.dirty[p := c], room := t.room - 1, tree := t.tree + {p}, next := if p >= t.next then p + 1 else t.next)
    case Touch(p) => t.(dirty := t.dirty[p := Get(s.txns, s.disk, p)])
    case Unspill(p) => t.(dirty := t.dirty[p := Mapped(s.disk, p)], spill := t.spill - {p}, room := t.room - 1)
    case Write(p, c) => t.(dirty := t.dirty[p := c])
    case Spill(pages) => t.(dirty := t.dirty - pages, spill := t.spill + pages, room := t.room + |pages|)
    case Free(p) => t.(tree := t.tree - {p}, freed := t.freed + [p])
    case Reuse(p, c) => t.(dirty := t.dirty[p := c], tree := t.tree + {p})
    case Release(p) =>
      t.(dirty := t.dirty - {p}, spill := t.spill - {p}, room := if p in t.dirty then t.room + 1 else t.room, tree := t.tree - {p})
    case Fetch(more, pglast) => t
  }

  function NewDisk(s: State, step: Step): map<nat, int>
    requires s.txns != []
  { if step.Spill? then Flushed(s.disk, Top(s).dirty, step.pages) else s.disk }

  function NewPg(s: State, step: Step): PgState {
    match step
    case Alloc(p, c) => s.pg.(pghead := s.pg.pghead - {p})
    case Release(p) => s.pg.(pghead := s.pg.pghead + {p})
    case Fetch(more, pglast) => PgState(s.pg.pghead + more, pglast)
    case _ => s.pg
  }

  function Do(s: State, step: Step): State
    requires Can(s, step)
  {
    match step
    case Begin => s.(txns := s.txns + [Child(Top(s), s.pg)])
    case Commit => s.(txns := s.txns[..|s.txns| - 2] + [Merged(s.txns[|s.txns| - 2], Top(s))])
    case Abort => s.(txns := Front(s), pg := Top(s).saved)
    case _ => State(Front(s) + [NewTop(s, step)], NewDisk(s, step), NewPg(s, step))
  }

  // ----- Invariant -----

  /** Pages that one of the transactions uses are on its lists or its ancestors'. */
  ghost predicate HeldWhereUsed(txns: seq<Txn>, pages: set<nat>) {
    txns == [] || (pages * Last(txns).tree <= Held(txns) && HeldWhereUsed(txns[..|txns| - 1], pages))
  }

  function Last(txns: seq<Txn>): Txn
    requires txns != []
  { txns[|txns| - 1] }

  /** For every transaction over its ancestors: a dirty page that an ancestor uses was dirty or spilled
    * there; no page is dirty and spilled, or spilled twice; mt_dirty_room is what is left of one list with
    * all visible dirty pages. */
  ghost predicate Ok(txns: seq<Txn>) {
    txns == [] || (Ok(txns[..|txns| - 1]) && TopOk(txns[..|txns| - 1], Last(txns)))
  }

  ghost predicate TopOk(front: seq<Txn>, t: Txn) { ListsOk(front, t.dirty.Keys, t.spill, t.room) }

  ghost predicate ListsOk(front: seq<Txn>, dirty: set<nat>, spill: set<nat>, room: int) {
    && HeldWhereUsed(front, dirty + spill)
    && spill !! dirty && spill !! Spilled(front)
    && room == UM_MAX - |(Visible(front) - spill) + dirty| >= 0
  }

  /** Free pages are not known to the transactions that may take them, nor to those that get them back. */
  ghost predicate Pool(txns: seq<Txn>, pages: set<nat>) { forall p :: p in pages ==> !Known(txns, p) }

  ghost predicate Fresh(txns: seq<Txn>) {
    txns == [] || (Fresh(txns[..|txns| - 1]) && Pool(txns[..|txns| - 1], Last(txns).saved.pghead) && KnownBelow(txns, Last(txns).next))
  }

  ghost predicate KnownBelow(txns: seq<Txn>, next: nat) { forall p: nat :: Known(txns, p) ==> p < next }

  ghost predicate Inv(s: State) { s.txns != [] && Ok(s.txns) && Fresh(s.txns) && Pool(s.txns, s.pg.pghead) }

  lemma OnTop(front: seq<Txn>, t: Txn)
    ensures var txns := front + [t]; txns[..|txns| - 1] == front && Last(txns) == t
  {
  }

  lemma OkTop(front: seq<Txn>, t: Txn)
    ensures Ok(front + [t]) <==> Ok(front) && TopOk(front, t)
  {
    OnTop(front, t);
  }

  lemma VisibleTop(front: seq<Txn>, t: Txn)
    ensures Visible(front + [t]) == (Visible(front) - t.spill) + t.dirty.Keys
    ensures Spilled(front + [t]) == Spilled(front) + t.spill
    ensures Held(front + [t]) == Held(front) + t.dirty.Keys + t.spill
  {
    OnTop(front, t);
  }

  lemma GetTop(front: seq<Txn>, t: Txn, disk: map<nat, int>, p: nat)
    ensures Get(front + [t], disk, p) ==
      if p in t.spill then Mapped(disk, p) else if p in t.dirty then t.dirty[p] else Get(front, disk, p)
  {
    OnTop(front, t);
  }

  lemma {:induction false} UsedLess(txns: seq<Txn>, pages: set<nat>, fewer: set<nat>)
    requires HeldWhereUsed(txns, pages) && fewer <= pages
    ensures HeldWhereUsed(txns, fewer)
  {
    if txns != [] { UsedLess(txns[..|txns| - 1], pages, fewer); }
  }

  lemma {:induction false} UsedBoth(txns: seq<Txn>, a: set<nat>, b: set<nat>)
    requires HeldWhereUsed(txns, a) && HeldWhereUsed(txns, b)
    ensures HeldWhereUsed(txns, a + b)
  {
    if txns != [] { UsedBoth(txns[..|txns| - 1], a, b); }
  }

  lemma {:induction false} UnusedHeld(txns: seq<Txn>, p: nat)
    requires !InTree(txns, p)
    ensures HeldWhereUsed(txns, {p})
  {
    if txns != [] {
      var front := txns[..|txns| - 1];
      assert forall i :: 0 <= i < |front| ==> front[i] == txns[i];
      assert Last(txns) == txns[|txns| - 1];
      UnusedHeld(front, p);
    }
  }

  lemma {:induction false} SeenIsHeld(txns: seq<Txn>)
    ensures Visible(txns) <= Held(txns) && Spilled(txns) <= Held(txns)
  {
    if txns != [] { SeenIsHeld(txns[..|txns| - 1]); }
  }

  /** A page on a list is held by all ancestors that use it. */
  lemma {:induction false} HeldWhereSeen(txns: seq<Txn>, p: nat)
    requires Ok(txns) && p in Held(txns)
    ensures HeldWhereUsed(txns, {p})
  {
    hide TopOk;
    if txns != [] {
      var front, t := txns[..|txns| - 1], Last(txns);
      if p in t.dirty.Keys + t.spill {
        TopHolds(front, t, p);
      } else {
        HeldWhereSeen(front, p);
      }
    }
  }

  lemma TopHolds(front: seq<Txn>, t: Txn, p: nat)
    requires TopOk(front, t) && p in t.dirty.Keys + t.spill
    ensures HeldWhereUsed(front, {p})
  {
    UsedLess(front, t.dirty.Keys + t.spill, {p});
  }

  // ----- Steps keep the invariant -----

  lemma {:induction false} UsedNone(txns: seq<Txn>)
    ensures HeldWhereUsed(txns, {})
  {
    if txns != [] { UsedNone(txns[..|txns| - 1]); }
  }

  /** A page becomes dirty that was not visible: one entry less. */
  lemma BecomesDirty(front: seq<Txn>, dirty: set<nat>, spill: set<nat>, room: int, p: nat)
    requires ListsOk(front, dirty, spill, room) && HeldWhereUsed(front, {p}) && room > 0
    requires p !in (Visible(front) - spill) + dirty
    ensures ListsOk(front, dirty + {p}, spill - {p}, room - 1)
  {
    hide HeldWhereUsed, Visible, Spilled;
    assert (Visible(front) - (spill - {p})) + (dirty + {p}) == ((Visible(front) - spill) + dirty) + {p};
    UsedBoth(front, dirty + spill, {p});
    UsedLess(front, (dirty + spill) + {p}, (dirty + {p}) + (spill - {p}));
  }

  /** A visible page is copied: as many entries as before. */
  lemma CopiedDirty(front: seq<Txn>, dirty: set<nat>, spill: set<nat>, room: int, p: nat)
    requires ListsOk(front, dirty, spill, room) && HeldWhereUsed(front, {p})
    requires p in (Visible(front) - spill) + dirty
    ensures ListsOk(front, dirty + {p}, spill, room)
  {
    hide HeldWhereUsed, Visible, Spilled;
    assert (Visible(front) - spill) + (dirty + {p}) == (Visible(front) - spill) + dirty;
    UsedBoth(front, dirty + spill, {p});
    assert (dirty + {p}) + spill == (dirty + spill) + {p};
  }

  lemma SpillOk(front: seq<Txn>, dirty: set<nat>, spill: set<nat>, room: int, pages: set<nat>)
    requires ListsOk(front, dirty, spill, room) && pages <= dirty && pages !! Spilled(front)
    ensures ListsOk(front, dirty - pages, spill + pages, room + |pages|)
  {
    hide HeldWhereUsed, Visible, Spilled;
    var before, after := (Visible(front) - spill) + dirty, (Visible(front) - (spill + pages)) + (dirty - pages);
    assert before == after + pages && after !! pages;
    assert |before| == |after| + |pages|;
    assert (dirty - pages) + (spill + pages) == dirty + spill;
  }

  /** An overflow page is given back: one entry more if it was dirty. */
  lemma ReleaseOk(dirty: set<nat>, spill: set<nat>, room: int, p: nat)
    requires ListsOk([], dirty, spill, room) && (p in dirty || p in spill)
    ensures ListsOk([], dirty - {p}, spill - {p}, if p in dirty then room + 1 else room)
  {
    assert (Visible([]) - spill) + dirty == dirty;
    assert (Visible([]) - (spill - {p})) + (dirty - {p}) == dirty - {p};
  }

  lemma ChildOk(front: seq<Txn>, t: Txn)
    requires TopOk(front, t)
    ensures ListsOk(front + [t], {}, {}, t.room)
  {
    UsedNone(front + [t]);
    VisibleTop(front, t);
    var v := Visible(front + [t]);
    assert {} + {} == (v - v) && (v - {}) + {} == v;
  }

  /** The merged lists of a nested transaction and its parent. */
  lemma MergedLists(front: seq<Txn>, parent: Txn, dirty: set<nat>, spill: set<nat>, room: int)
    requires TopOk(front, parent) && ListsOk(front + [parent], dirty, spill, room)
    ensures ListsOk(front, (parent.dirty.Keys - spill) + dirty, (parent.spill - dirty) + spill, room)
  {
    VisibleTop(front, parent);
    OnTop(front, parent);
    var d, s := (parent.dirty.Keys - spill) + dirty, (parent.spill - dirty) + spill;
    UsedBoth(front, parent.dirty.Keys + parent.spill, dirty + spill);
    UsedLess(front, (parent.dirty.Keys + parent.spill) + (dirty + spill), d + s);
    SameVisible(Visible(front), parent.dirty.Keys, parent.spill, dirty, spill);
  }

  lemma SameVisible(v: set<nat>, pd: set<nat>, ps: set<nat>, d: set<nat>, s: set<nat>)
    requires ps !! pd && s !! d
    ensures (v - ((ps - d) + s)) + ((pd - s) + d) == (((v - ps) + pd) - s) + d
  {
  }

  lemma AllocOk(txns: seq<Txn>, front: seq<Txn>, t: Txn, p: nat)
    requires Ok(txns) && txns == front + [t] && !Known(txns, p) && t.room > 0
    ensures ListsOk(front, t.dirty.Keys + {p}, t.spill, t.room - 1)
  {
    hide Held, Visible, Spilled, HeldWhereUsed, Ok, ListsOk;
    assert !InTree(front, p) by { assert forall i :: 0 <= i < |front| ==> front[i] == txns[i]; }
    UnusedHeld(front, p);
    NewlyHeld(front, t, p);
    OkTop(front, t);
    BecomesDirty(front, t.dirty.Keys, t.spill, t.room, p);
    assert t.spill - {p} == t.spill;
  }

  lemma NewlyHeld(front: seq<Txn>, t: Txn, p: nat)
    requires p !in Held(front + [t])
    ensures p !in (Visible(front) - t.spill) + t.dirty.Keys && p !in t.spill
  {
    hide Visible, Held;
    VisibleTop(front, t);
    SeenIsHeld(front + [t]);
  }

  /** A page on the lists of the top transaction, or below. */
  lemma HeldBelow(front: seq<Txn>, t: Txn, p: nat)
    requires Ok(front + [t]) && (p in Visible(front + [t]) || p in Spilled(front + [t]))
    ensures HeldWhereUsed(front, {p}) && TopOk(front, t)
  {
    hide Ok, Visible, Spilled, Held;
    SeenIsHeld(front + [t]);
    HeldWhereSeen(front + [t], p);
    OnTop(front, t);
    OkTop(front, t);
  }

  lemma TouchOk(front: seq<Txn>, t: Txn, p: nat)
    requires Ok(front + [t]) && p in Visible(front + [t])
    ensures ListsOk(front, t.dirty.Keys + {p}, t.spill, t.room)
  {
    hide Ok, Visible, Spilled, Held, ListsOk;
    HeldBelow(front, t, p);
    VisibleTop(front, t);
    CopiedDirty(front, t.dirty.Keys, t.spill, t.room, p);
  }

  lemma UnspillOk(front: seq<Txn>, t: Txn, p: nat)
    requires Ok(front + [t]) && p !in Visible(front + [t]) && p in Spilled(front + [t]) && t.room > 0
    ensures ListsOk(front, t.dirty.Keys + {p}, t.spill - {p}, t.room - 1)
  {
    hide Ok, Visible, Spilled, Held, ListsOk;
    HeldBelow(front, t, p);
    VisibleTop(front, t);
    BecomesDirty(front, t.dirty.Keys, t.spill, t.room, p);
  }

  lemma KeysAdded(m: map<nat, int>, p: nat, c: int)
    ensures m[p := c].Keys == m.Keys + {p} && (p in m ==> m[p := c].Keys == m.Keys)
  {
  }

  lemma AllocStep(s: State, p: nat, c: int, front: seq<Txn>, t: Txn)
    requires Ok(s.txns) && Can(s, Alloc(p, c)) && s.txns == front + [t] && front == Front(s) && t == Top(s) && !Known(s.txns, p)
    ensures var v := NewTop(s, Alloc(p, c)); ListsOk(front, v.dirty.Keys, v.spill, v.room)
  {
    hide Ok, Visible, Spilled, Held, Get, HeldWhereUsed, ListsOk, InTree, Known;
    AllocOk(s.txns, front, t, p);
    KeysAdded(t.dirty, p, c);
  }

  lemma TouchStep(s: State, p: nat, front: seq<Txn>, t: Txn)
    requires Ok(s.txns) && Can(s, Touch(p)) && s.txns == front + [t] && front == Front(s) && t == Top(s)
    ensures var v := NewTop(s, Touch(p)); ListsOk(front, v.dirty.Keys, v.spill, v.room)
  {
    hide Ok, Visible, Spilled, Held, Get, HeldWhereUsed, ListsOk, InTree, Known;
    TouchOk(front, t, p);
    KeysAdded(t.dirty, p, Get(s.txns, s.disk, p));
  }

  lemma UnspillStep(s: State, p: nat, front: seq<Txn>, t: Txn)
    requires Ok(s.txns) && Can(s, Unspill(p)) && s.txns == front + [t] && front == Front(s) && t == Top(s)
    ensures var v := NewTop(s, Unspill(p)); ListsOk(front, v.dirty.Keys, v.spill, v.room)
  {
    hide Ok, Visible, Spilled, Held, Get, HeldWhereUsed, ListsOk, InTree, Known;
    UnspillOk(front, t, p);
    KeysAdded(t.dirty, p, Mapped(s.disk, p));
  }

  lemma SpillStep(s: State, pages: set<nat>, front: seq<Txn>, t: Txn)
    requires Ok(s.txns) && Can(s, Spill(pages)) && s.txns == front + [t] && front == Front(s) && t == Top(s)
    ensures var v := NewTop(s, Spill(pages)); ListsOk(front, v.dirty.Keys, v.spill, v.room)
  {
    hide Ok, Visible, Spilled, Held, Get, HeldWhereUsed, ListsOk, InTree, Known;
    OkTop(front, t);
    SpillOk(front, t.dirty.Keys, t.spill, t.room, pages);
    KeysLess(t.dirty, pages);
  }

  lemma ReleaseStep(s: State, p: nat, front: seq<Txn>, t: Txn)
    requires Ok(s.txns) && Can(s, Release(p)) && s.txns == front + [t] && front == Front(s) && t == Top(s)
    ensures var v := NewTop(s, Release(p)); ListsOk(front, v.dirty.Keys, v.spill, v.room)
  {
    hide Ok, Visible, Spilled, Held, Get, HeldWhereUsed, ListsOk, InTree, Known;
    OkTop(front, t);
    ReleaseOk(t.dirty.Keys, t.spill, t.room, p);
    KeysLess(t.dirty, {p});
  }

  /** Steps of the transaction on top. */
  lemma TopStepOk(s: State, step: Step, front: seq<Txn>, t: Txn, v: Txn)
    requires Ok(s.txns) && Can(s, step) && !Structural(step) && s.txns == front + [t] && front == Front(s) && t == Top(s)
    requires v == NewTop(s, step) && (step.Alloc? ==> !Known(s.txns, step.p))
    ensures ListsOk(front, v.dirty.Keys, v.spill, v.room)
  {
    hide Ok, ListsOk, Known, Can, NewTop;
    OkTop(front, t);
    match step
    case Alloc(p, c) => AllocStep(s, p, c, front, t);
    case Touch(p) => TouchStep(s, p, front, t);
    case Unspill(p) => UnspillStep(s, p, front, t);
    case Spill(pages) => SpillStep(s, pages, front, t);
    case Release(p) => ReleaseStep(s, p, front, t);
    case _ => SameLists(s, step, t, v);
  }

  lemma KeysLess(m: map<nat, int>, pages: set<nat>)
    ensures (m - pages).Keys == m.Keys - pages
  {
  }

  lemma SameLists(s: State, step: Step, t: Txn, v: Txn)
    requires Can(s, step) && !Structural(step) && t == Top(s) && v == NewTop(s, step)
    requires step.Write? || step.Free? || step.Reuse? || step.Fetch?
    ensures v.dirty.Keys == t.dirty.Keys && v.spill == t.spill && v.room == t.room
  {
    hide Get, Visible, Spilled, Held, InTree, Known;
    if step.Write? || step.Reuse? { KeysAdded(t.dirty, step.p, step.c); }
  }

  lemma ReplaceTop(front: seq<Txn>, t: Txn, v: Txn)
    requires Ok(front + [t]) && ListsOk(front, v.dirty.Keys, v.spill, v.room)
    ensures Ok(front + [v])
  {
    OkTop(front, t);
    OkTop(front, v);
  }

  lemma BeginOk(txns: seq<Txn>, front: seq<Txn>, t: Txn, c: Txn)
    requires Ok(txns) && txns == front + [t] && c.dirty == map[] && c.spill == {} && c.room == t.room
    ensures Ok(txns + [c])
  {
    hide Ok, ListsOk;
    OkTop(front, t);
    ChildOk(front, t);
    OkTop(txns, c);
    assert c.dirty.Keys == {};
  }

  lemma CommitOk(base: seq<Txn>, parent: Txn, t: Txn)
    requires Ok(base + [parent] + [t])
    ensures Ok(base + [Merged(parent, t)])
  {
    hide Ok, ListsOk;
    OkTop(base + [parent], t);
    OkTop(base, parent);
    MergedLists(base, parent, t.dirty.Keys, t.spill, t.room);
    var m := Merged(parent, t);
    assert m.dirty.Keys == (parent.dirty.Keys - t.spill) + t.dirty.Keys;
    OkTop(base, m);
  }

  /** The two transactions that a commit merges. */
  lemma TopTwo(s: State)
    requires |s.txns| >= 2
    ensures var n := |s.txns|; s.txns == s.txns[..n - 2] + [s.txns[n - 2]] + [Top(s)] && Front(s) == s.txns[..n - 2] + [s.txns[n - 2]]
  {
  }

  // ----- Free pages -----

  lemma KnownTop(front: seq<Txn>, t: Txn)
    ensures forall p :: Known(front + [t], p) <==> Known(front, p) || p in t.dirty || p in t.spill || p in t.tree
  {
    var txns := front + [t];
    VisibleTop(front, t);
    assert txns[|front|] == t && forall i :: 0 <= i < |front| ==> txns[i] == front[i];
  }

  lemma FreshTop(front: seq<Txn>, t: Txn)
    ensures Fresh(front + [t]) <==> Fresh(front) && Pool(front, t.saved.pghead) && KnownBelow(front + [t], t.next)
  {
    OnTop(front, t);
  }

  lemma TakenIsFresh(s: State, p: nat, c: int)
    requires Inv(s) && Can(s, Alloc(p, c))
    ensures !Known(s.txns, p)
  {
    hide Known, Held, Visible, Spilled, Ok;
    TopOf(s);
    FreshTop(Front(s), Top(s));
  }

  /** Only an allocated page becomes known. */
  lemma NewlyKnown(s: State, step: Step, front: seq<Txn>, t: Txn, v: Txn)
    requires Ok(s.txns) && Can(s, step) && !Structural(step) && s.txns == front + [t] && front == Front(s) && t == Top(s)
    requires v == NewTop(s, step)
    ensures forall p :: Known(front + [v], p) ==> Known(front + [t], p) || (step.Alloc? && p == step.p)
    ensures step.Release? ==> !Known(front + [v], step.p)
  {
    hide Known, Held, InTree, Visible, Spilled, Get, Ok;
    KnownTop(front, t);
    KnownTop(front, v);
    SeenIsKnown(s.txns);
    if step.Release? { NoneKnown(front, step.p); }
  }

  lemma SeenIsKnown(txns: seq<Txn>)
    ensures forall p :: p in Visible(txns) || p in Spilled(txns) ==> Known(txns, p)
  {
    SeenIsHeld(txns);
  }

  lemma NoneKnown(txns: seq<Txn>, p: nat)
    requires txns == []
    ensures !Known(txns, p)
  {
  }

  lemma TopStepFresh(s: State, step: Step, front: seq<Txn>, t: Txn, v: Txn)
    requires Inv(s) && Can(s, step) && !Structural(step) && s.txns == front + [t] && front == Front(s) && t == Top(s)
    requires v == NewTop(s, step)
    ensures Fresh(front + [v]) && Pool(front + [v], NewPg(s, step).pghead)
  {
    hide Known, Held, InTree, Visible, Spilled, Get, Ok, Fresh;
    NewlyKnown(s, step, front, t, v);
    FreshTop(front, t);
    FreshTop(front, v);
  }

  lemma BeginFresh(txns: seq<Txn>, front: seq<Txn>, t: Txn, pg: PgState)
    requires txns == front + [t] && Fresh(txns) && Pool(txns, pg.pghead)
    ensures Fresh(txns + [Child(t, pg)]) && Pool(txns + [Child(t, pg)], pg.pghead)
  {
    hide Known, Fresh;
    KnownTop(front, t);
    FreshTop(front, t);
    KnownTop(txns, Child(t, pg));
    FreshTop(txns, Child(t, pg));
  }

  lemma CommitFresh(base: seq<Txn>, parent: Txn, t: Txn, head: set<nat>)
    requires Fresh(base + [parent] + [t]) && Pool(base + [parent] + [t], head)
    ensures Fresh(base + [Merged(parent, t)]) && Pool(base + [Merged(parent, t)], head)
  {
    hide Known, Fresh;
    KnownTop(base + [parent], t);
    KnownTop(base, parent);
    KnownTop(base, Merged(parent, t));
    FreshTop(base + [parent], t);
    FreshTop(base, parent);
    FreshTop(base, Merged(parent, t));
  }

  lemma StepFresh(s: State, step: Step)
    requires Inv(s) && Can(s, step)
    ensures Fresh(Do(s, step).txns) && Pool(Do(s, step).txns, Do(s, step).pg.pghead)
  {
    hide Ok, Fresh, Pool, Known, Visible, Spilled, Held, Get;
    TopOf(s);
    match step
    case Begin => BeginFresh(s.txns, Front(s), Top(s), s.pg);
    case Commit =>
      TopTwo(s);
      CommitFresh(s.txns[..|s.txns| - 2], s.txns[|s.txns| - 2], Top(s), s.pg.pghead);
    case Abort => FreshTop(Front(s), Top(s));
    case _ => TopStepFresh(s, step, Front(s), Top(s), NewTop(s, step));
  }

  lemma StepOk(s: State, step: Step)
    requires s.txns != [] && Ok(s.txns) && Can(s, step) && (step.Alloc? ==> !Known(s.txns, step.p))
    ensures Ok(Do(s, step).txns)
  {
    hide Ok, Known, NewTop, NewDisk, NewPg, Merged, ListsOk, Visible, Spilled, Held, Get;
    TopOf(s);
    OkTop(Front(s), Top(s));
    match step
    case Begin => BeginOk(s.txns, Front(s), Top(s), Child(Top(s), s.pg));
    case Commit =>
      TopTwo(s);
      CommitOk(s.txns[..|s.txns| - 2], s.txns[|s.txns| - 2], Top(s));
    case Abort =>
    case _ =>
      TopStepOk(s, step, Front(s), Top(s), NewTop(s, step));
      ReplaceTop(Front(s), Top(s), NewTop(s, step));
  }

  /** Every step keeps the invariant. */
  lemma StepKeeps(s: State, step: Step)
    requires Inv(s) && Can(s, step)
    ensures Inv(Do(s, step))
  {
    hide Ok, Fresh, Pool, Known, Can, Do;
    StepFresh(s, step);
    if step.Alloc? { TakenIsFresh(s, step.p, step.c); }
    StepOk(s, step);
    StillOpen(s, step);
  }

  lemma StillOpen(s: State, step: Step)
    requires Can(s, step)
    ensures s.txns != [] && Do(s, step).txns != []
  {
    hide Known, Visible, Spilled, Held, Get;
  }

  lemma TopOf(s: State)
    requires s.txns != []
    ensures s.txns == Front(s) + [Top(s)]
  {
  }

  // ----- Room in the dirty lists -----

  /** A page that an ancestor has dirty can be copied: the list is not full. */
  lemma TouchHasRoom(s: State, p: nat)
    requires Inv(s) && Can(s, Touch(p))
    ensures |Top(s).dirty| < UM_MAX
  {
    TopOf(s);
    OkTop(Front(s), Top(s));
    VisibleTop(Front(s), Top(s));
    var visible := (Visible(Front(s)) - Top(s).spill) + Top(s).dirty.Keys;
    assert Top(s).dirty.Keys + {p} <= visible;
    Larger(Top(s).dirty.Keys + {p}, visible);
    assert |Top(s).dirty.Keys + {p}| == |Top(s).dirty.Keys| + 1;
  }

  lemma {:induction false} Larger(a: set<nat>, b: set<nat>)
    requires a <= b
    ensures |a| <= |b|
  {
    if x :| x in a {
      Larger(a - {x}, b - {x});
    }
  }

  lemma ListFits(front: seq<Txn>, t: Txn)
    requires TopOk(front, t)
    ensures |t.dirty| <= UM_MAX - t.room && t.room >= 0 && (front == [] ==> |t.dirty| == UM_MAX - t.room)
  {
    Larger(t.dirty.Keys, (Visible(front) - t.spill) + t.dirty.Keys);
    assert |t.dirty| == |t.dirty.Keys|;
    if front == [] { assert (Visible(front) - t.spill) + t.dirty.Keys == t.dirty.Keys; }
  }

  /** Commit has room for the merged list; with one ancestor, its length is what mt_dirty_room says. */
  lemma MergedFits(s: State)
    requires Inv(s) && Can(s, Commit)
    ensures var m := Last(Do(s, Commit).txns); |m.dirty| <= UM_MAX - m.room && m.room >= 0
    ensures |s.txns| == 2 ==> |Last(Do(s, Commit).txns).dirty| == UM_MAX - Top(s).room
  {
    hide Ok, ListsOk, Visible;
    StepKeeps(s, Commit);
    var base, m := s.txns[..|s.txns| - 2], Merged(s.txns[|s.txns| - 2], Top(s));
    OnTop(base, m);
    OkTop(base, m);
    ListFits(base, m);
  }

  // ----- Commit -----

  /** What the transaction saw is what its parent sees after the commit. */
  lemma CommitKeepsView(s: State, p: nat)
    requires Inv(s) && Can(s, Commit)
    ensures Get(Do(s, Commit).txns, Do(s, Commit).disk, p) == Get(s.txns, s.disk, p)
  {
    hide Get, Ok, ListsOk;
    TopTwo(s);
    var base, parent, t := s.txns[..|s.txns| - 2], s.txns[|s.txns| - 2], Top(s);
    OkTop(base + [parent], t);
    OkTop(base, parent);
    MergedView(base, parent, t, s.disk, p);
  }

  lemma MergedView(base: seq<Txn>, parent: Txn, t: Txn, disk: map<nat, int>, p: nat)
    requires TopOk(base, parent) && TopOk(base + [parent], t)
    ensures Get(base + [Merged(parent, t)], disk, p) == Get(base + [parent] + [t], disk, p)
  {
    hide Get, Visible, Spilled, HeldWhereUsed;
    GetTop(base + [parent], t, disk, p);
    GetTop(base, parent, disk, p);
    GetTop(base, Merged(parent, t), disk, p);
  }

  // ----- Abort -----

  lemma {:induction false} UsedPrefix(txns: seq<Txn>, k: nat, pages: set<nat>)
    requires HeldWhereUsed(txns, pages) && k <= |txns|
    ensures HeldWhereUsed(txns[..k], pages)
  {
    if k < |txns| {
      UsedPrefix(txns[..|txns| - 1], k, pages);
      assert txns[..|txns| - 1][..k] == txns[..k];
    } else {
      assert txns[..k] == txns;
    }
  }

  lemma {:induction false} SpilledPrefix(txns: seq<Txn>, k: nat)
    requires k <= |txns|
    ensures Spilled(txns[..k]) <= Spilled(txns)
  {
    if k < |txns| {
      SpilledPrefix(txns[..|txns| - 1], k);
      assert txns[..|txns| - 1][..k] == txns[..k];
    } else {
      assert txns[..k] == txns;
    }
  }

  /** A page found in a dirty list does not depend on the map. */
  lemma {:induction false} DirtyHit(txns: seq<Txn>, disk: map<nat, int>, disk': map<nat, int>, p: nat)
    requires p in Held(txns) && p !in Spilled(txns)
    ensures Get(txns, disk, p) == Get(txns, disk', p)
  {
    if txns != [] && p !in Last(txns).dirty { DirtyHit(txns[..|txns| - 1], disk, disk', p); }
  }

  lemma {:induction false} SameMapped(txns: seq<Txn>, disk: map<nat, int>, disk': map<nat, int>, p: nat)
    requires Mapped(disk, p) == Mapped(disk', p)
    ensures Get(txns, disk, p) == Get(txns, disk', p)
  {
    if txns != [] { SameMapped(txns[..|txns| - 1], disk, disk', p); }
  }

  /** Spilling writes only pages that the ancestors do not read from the map. */
  lemma SpillUnseen(front: seq<Txn>, t: Txn, disk: map<nat, int>, pages: set<nat>, k: nat, p: nat)
    requires TopOk(front, t) && pages <= t.dirty.Keys && pages !! Spilled(front)
    requires 0 < k <= |front| && p in front[k - 1].tree
    ensures Get(front[..k], Flushed(disk, t.dirty, pages), p) == Get(front[..k], disk, p)
  {
    var disk' := Flushed(disk, t.dirty, pages);
    var txns := front[..k];
    if p in pages {
      UsedPrefix(front, k, t.dirty.Keys + t.spill);
      SpilledPrefix(front, k);
      assert Last(txns) == front[k - 1];
      assert p in (t.dirty.Keys + t.spill) * Last(txns).tree;
      DirtyHit(txns, disk, disk', p);
    } else {
      SameMapped(txns, disk, disk', p);
    }
  }

  /** The transactions below the top one stay. */
  lemma PrefixKept(s: State, step: Step, k: nat)
    requires Can(s, step) && 0 < k < |s.txns| && k < |Do(s, step).txns|
    ensures Do(s, step).txns[..k] == s.txns[..k] && Do(s, step).txns[k].saved == s.txns[k].saved
  {
    hide Get, Visible, Spilled, Held, InTree;
  }

  /** A step of a nested transaction, or of one inside it, leaves what its ancestors see of their own pages
    * alone. */
  lemma AncestorsKeep(s: State, step: Step, k: nat, p: nat)
    requires Inv(s) && Can(s, step) && 0 < k < |s.txns| && p in s.txns[k - 1].tree
    ensures Get(s.txns[..k], Do(s, step).disk, p) == Get(s.txns[..k], s.disk, p)
  {
    hide Get, Inv, Ok, TopOk, Can, Do;
    TopOf(s);
    OnDisk(s, step);
    if step.Spill? {
      OkTop(Front(s), Top(s));
      assert Front(s)[..k] == s.txns[..k];
      SpillUnseen(Front(s), Top(s), s.disk, step.pages, k, p);
    }
  }

  /** Only spilling writes to the map. */
  lemma OnDisk(s: State, step: Step)
    requires Inv(s) && Can(s, step)
    ensures s.txns != [] && Ok(s.txns)
    ensures Do(s, step).disk == if step.Spill? then Flushed(s.disk, Top(s).dirty, step.pages) else s.disk
    ensures step.Spill? ==> step.pages <= Top(s).dirty.Keys && step.pages !! Spilled(Front(s))
  {
    hide Ok, Fresh, Pool, Known, Visible, Held, Spilled, Get;
  }

  /** A run: every state follows from the one before. */
  ghost predicate Run(ss: seq<State>, steps: seq<Step>) {
    |ss| == |steps| + 1 && forall i :: 0 <= i < |steps| ==> Follows(ss[i], steps[i], ss[i + 1])
  }

  ghost predicate Follows(s: State, step: Step, s': State) { Can(s, step) && s' == Do(s, step) }

  /** What a state keeps of an earlier one: the first k transactions, what they see at p, and the free-page
    * state to return to. */
  ghost predicate Keeps(s0: State, s: State, k: nat, p: nat) {
    && |s.txns| > k && |s0.txns| > k
    && s.txns[..k] == s0.txns[..k] && s.txns[k].saved == s0.txns[k].saved
    && Get(s.txns[..k], s.disk, p) == Get(s0.txns[..k], s0.disk, p)
  }

  lemma {:induction false} RunKeeps(ss: seq<State>, steps: seq<Step>, n: nat)
    requires Run(ss, steps) && Inv(ss[0]) && n <= |steps|
    ensures Inv(ss[n])
    decreases n
  {
    hide Inv, Can, Do;
    if n > 0 {
      RunKeeps(ss, steps, n - 1);
      assert Follows(ss[n - 1], steps[n - 1], ss[n]);
      StepKeeps(ss[n - 1], steps[n - 1]);
    }
  }

  /** Over every run, at any depth of nesting, aborts included: a page that mdb_page_alloc takes is on no list
    * and in no tree of an open transaction, whether it was free or is new. */
  lemma AllocIsFresh(ss: seq<State>, steps: seq<Step>, n: nat)
    requires Run(ss, steps) && Inv(ss[0]) && n < |steps| && steps[n].Alloc?
    ensures !Known(ss[n].txns, steps[n].p)
  {
    hide Inv, Can, Do, Known;
    RunKeeps(ss, steps, n);
    assert Follows(ss[n], steps[n], ss[n + 1]);
    TakenIsFresh(ss[n], steps[n].p, steps[n].c);
  }

  lemma StepKeepsParent(s0: State, s: State, step: Step, s': State, k: nat, p: nat)
    requires Inv(s) && Keeps(s0, s, k, p) && Follows(s, step, s') && |s'.txns| > k > 0 && p in s0.txns[k - 1].tree
    ensures Inv(s') && Keeps(s0, s', k, p)
  {
    hide Inv, Can, Do, Get;
    assert s.txns[k - 1] == s.txns[..k][k - 1] == s0.txns[..k][k - 1];
    StepKeeps(s, step);
    PrefixKept(s, step, k);
    AncestorsKeep(s, step, k, p);
  }

  /** While a nested transaction lives, its parent's lists and pages do not change. */
  lemma {:induction false} ParentKeeps(ss: seq<State>, steps: seq<Step>, k: nat, n: nat, p: nat)
    requires Run(ss, steps) && Inv(ss[0]) && n <= |steps| && 0 < k && (forall i :: 0 <= i <= n ==> |ss[i].txns| > k)
    requires p in ss[0].txns[k - 1].tree
    ensures Inv(ss[n]) && Keeps(ss[0], ss[n], k, p)
    decreases n
  {
    hide Inv, Follows;
    if n > 0 {
      ParentKeeps(ss, steps, k, n - 1, p);
      StepKeepsParent(ss[0], ss[n - 1], steps[n - 1], ss[n], k, p);
    }
  }

  /** Aborting a nested transaction, whatever it and the transactions inside it did, leaves its parent
    * with the lists, the free-page state and the view of its pages that it had. */
  lemma AbortRestores(s0: State, ss: seq<State>, steps: seq<Step>, p: nat)
    requires Inv(s0) && Run(ss, steps) && ss[0] == Do(s0, Begin) && p in Top(s0).tree
    requires forall i :: 0 <= i < |ss| ==> |ss[i].txns| > |s0.txns|
    requires |ss[|steps|].txns| == |s0.txns| + 1
    ensures var s := Do(ss[|steps|], Abort);
      s.txns == s0.txns && s.pg == s0.pg && Get(s.txns, s.disk, p) == Get(s0.txns, s0.disk, p)
  {
    hide Inv, Run, Get;
    var k, n := |s0.txns|, |steps|;
    RunNotEmpty(ss, steps, s0);
    StepKeeps(s0, Begin);
    assert ss[0].txns[..k] == s0.txns;
    ParentKeeps(ss, steps, k, n, p);
  }

  lemma RunNotEmpty(ss: seq<State>, steps: seq<Step>, s0: State)
    requires Run(ss, steps) && Inv(s0)
    ensures |ss| == |steps| + 1 && s0.txns != []
  {
  }
}
