/** The compacting copy (mdb_env_cwalk): pages are written children first and numbered as they are
  * written. */
module Compact {

  const NUM_METAS := 2

  datatype Option<+T> = None | Some(value: T)

  /** A leaf node: plain data, data on overflow pages, or a sub-database (None is P_INVALID). */
  datatype Node = Plain(data: int) | Big(data: int, npages: nat) | Sub(data: int, dup: bool, root: Option<Tree>)

  /** A source tree; `keys` stands for what branch nodes hold besides page numbers. */
  datatype Tree = Leaf(nodes: seq<Node>) | Branch(keys: int, kids: seq<Tree>)

  /** A node or page of the copy: references are page numbers of the copy. */
  datatype NewNode = NewPlain(data: int) | NewBig(data: int, npages: nat, pg: nat) | NewSub(data: int, dup: bool, to: Option<nat>)

  datatype Page =
    | Meta
    | LeafPage(num: nat, nodes: seq<NewNode>)
    | BranchPage(num: nat, keys: int, kids: seq<nat>)
    | OverPage(num: nat, npages: nat, data: int)
    | TailPage(data: int)

  /** Branches have children, overflow data has pages, and sub-databases of duplicates hold plain data
    * only. */
  predicate Ok(t: Tree, dup: bool)
    decreases t, 0
  {
    match t
    case Leaf(nodes) => NodesOk(nodes, dup)
    case Branch(_, kids) => kids != [] && KidsOk(kids, dup)
  }

  predicate KidsOk(kids: seq<Tree>, dup: bool)
    decreases kids, 0
  { kids == [] || (Ok(kids[0], dup) && KidsOk(kids[1..], dup)) }

  predicate NodesOk(nodes: seq<Node>, dup: bool)
    decreases nodes, 0
  { nodes == [] || (NodeOk(nodes[0], dup) && NodesOk(nodes[1..], dup)) }

  predicate NodeOk(n: Node, dup: bool)
    decreases n, 1
  {
    match n
    case Plain(_) => true
    case Big(_, k) => !dup && k > 0
    case Sub(_, d, r) => !dup && (r.Some? ==> Ok(r.value, d))
  }

  // ----- What is written -----

  function Tails(k: nat, data: int): (s: seq<Page>)
    ensures |s| == k && forall i :: 0 <= i < k ==> s[i] == TailPage(data)
  { seq(k, i => TailPage(data)) }

  /** `out` with the pages of tree t, and the number of its root page. */
  function WriteTree(t: Tree, out: seq<Page>): (seq<Page>, nat)
    decreases t, 0
  {
    match t
    case Leaf(nodes) =>
      var (o, ns) := WriteNodes(nodes, out);
      (o + [LeafPage(|o|, ns)], |o|)
    case Branch(keys, kids) =>
      var (o, ps) := WriteKids(kids, out);
      (o + [BranchPage(|o|, keys, ps)], |o|)
  }

  function WriteKids(kids: seq<Tree>, out: seq<Page>): (seq<Page>, seq<nat>)
    decreases kids, 0
  {
    if kids == [] then (out, []) else
      var (o, p) := WriteTree(kids[0], out);
      var (o', ps) := WriteKids(kids[1..], o);
      (o', [p] + ps)
  }

  function WriteNodes(nodes: seq<Node>, out: seq<Page>): (seq<Page>, seq<NewNode>)
    decreases nodes, 0
  {
    if nodes == [] then (out, []) else
      var (o, n) := WriteNode(nodes[0], out);
      var (o', ns) := WriteNodes(nodes[1..], o);
      (o', [n] + ns)
  }

  function WriteNode(n: Node, out: seq<Page>): (seq<Page>, NewNode)
    decreases n, 1
  {
    match n
    case Plain(d) => (out, NewPlain(d))
    case Big(d, k) => (out + [OverPage(|out|, k, d)] + Tails(if k > 0 then k - 1 else 0, d), NewBig(d, k, |out|))
    case Sub(d, s, None) => (out, NewSub(d, s, None))
    case Sub(d, s, Some(t)) =>
      var (o, p) := WriteTree(t, out);
      (o, NewSub(d, s, Some(p)))
  }

  // ----- How many pages there are -----

  function Count(t: Tree): nat
    decreases t, 0
  {
    match t
    case Leaf(nodes) => 1 + CountNodes(nodes)
    case Branch(_, kids) => 1 + CountKids(kids)
  }

  function CountKids(kids: seq<Tree>): nat
    decreases kids, 0
  { if kids == [] then 0 else Count(kids[0]) + CountKids(kids[1..]) }

  function CountNodes(nodes: seq<Node>): nat
    decreases nodes, 0
  { if nodes == [] then 0 else CountNode(nodes[0]) + CountNodes(nodes[1..]) }

  function CountNode(n: Node): nat
    decreases n, 1
  {
    match n
    case Plain(_) => 0
    case Big(_, k) => k
    case Sub(_, _, r) => if r.Some? then Count(r.value) else 0
  }

  // ----- Reading the copy back -----

  /** The tree that page p of a file stands for; None if a reference does not go back to an earlier page. */
  function ReadTree(file: seq<Page>, p: nat): Option<Tree>
    decreases p, 2, 0
  {
    if p >= |file| then None
    else
      match file[p]
      case LeafPage(num, ns) => if num != p then None else (match ReadNodes(file, p, ns) case None => None case Some(nodes) => Some(Leaf(nodes)))
      case BranchPage(num, keys, ps) => if num != p then None else (match ReadKids(file, p, ps) case None => None case Some(kids) => Some(Branch(keys, kids)))
      case _ => None
  }

  function ReadKids(file: seq<Page>, p: nat, ps: seq<nat>): Option<seq<Tree>>
    decreases p, 1, |ps|
  {
    if ps == [] then Some([])
    else if ps[0] >= p then None
    else
      match (ReadTree(file, ps[0]), ReadKids(file, p, ps[1..]))
      case (Some(t), Some(ts)) => Some([t] + ts)
      case _ => None
  }

  function ReadNodes(file: seq<Page>, p: nat, ns: seq<NewNode>): Option<seq<Node>>
    decreases p, 1, |ns|
  {
    if ns == [] then Some([])
    else
      match (ReadNode(file, p, ns[0]), ReadNodes(file, p, ns[1..]))
      case (Some(n), Some(rest)) => Some([n] + rest)
      case _ => None
  }

  function ReadNode(file: seq<Page>, p: nat, n: NewNode): Option<Node>
    decreases p, 0, 0
  {
    match n
    case NewPlain(d) => Some(Plain(d))
    case NewBig(d, k, pg) =>
      if k > 0 && pg + k <= p <= |file| && file[pg] == OverPage(pg, k, d) && file[pg + 1..pg + k] == Tails(k - 1, d)
      then Some(Big(d, k)) else None
    case NewSub(d, s, None) => Some(Sub(d, s, None))
    case NewSub(d, s, Some(pg)) =>
      if pg >= p then None
      else match ReadTree(file, pg) case None => None case Some(t) => Some(Sub(d, s, Some(t)))
  }

  // ----- The copy holds the same contents -----

  /** Pages are only added, as many as the tree has; the root comes last. */
  lemma {:induction false} WritesCount(t: Tree, dup: bool, out: seq<Page>)
    requires Ok(t, dup)
    ensures out <= WriteTree(t, out).0 && |WriteTree(t, out).0| == |out| + Count(t)
    ensures WriteTree(t, out).1 == |out| + Count(t) - 1
    decreases t, 0
  {
    match t
    case Leaf(nodes) => NodesCount(nodes, dup, out);
    case Branch(_, kids) => KidsCount(kids, dup, out);
  }

  lemma {:induction false} KidsCount(kids: seq<Tree>, dup: bool, out: seq<Page>)
    requires KidsOk(kids, dup)
    ensures out <= WriteKids(kids, out).0 && |WriteKids(kids, out).0| == |out| + CountKids(kids)
    ensures |WriteKids(kids, out).1| == |kids|
    decreases kids, 0
  {
    if kids != [] {
      WritesCount(kids[0], dup, out);
      KidsCount(kids[1..], dup, WriteTree(kids[0], out).0);
    }
  }

  lemma {:induction false} NodesCount(nodes: seq<Node>, dup: bool, out: seq<Page>)
    requires NodesOk(nodes, dup)
    ensures out <= WriteNodes(nodes, out).0 && |WriteNodes(nodes, out).0| == |out| + CountNodes(nodes)
    ensures |WriteNodes(nodes, out).1| == |nodes|
    decreases nodes, 0
  {
    if nodes != [] {
      NodeCount(nodes[0], dup, out);
      NodesCount(nodes[1..], dup, WriteNode(nodes[0], out).0);
    }
  }

  lemma {:induction false} NodeCount(n: Node, dup: bool, out: seq<Page>)
    requires NodeOk(n, dup)
    ensures out <= WriteNode(n, out).0 && |WriteNode(n, out).0| == |out| + CountNode(n)
    decreases n, 1
  {
    if n.Sub? && n.root.Some? { WritesCount(n.root.value, n.dup, out); }
  }

  lemma PrefixTrans<T>(a: seq<T>, b: seq<T>, c: seq<T>)
    requires a <= b && b <= c
    ensures a <= c
  {
  }

  /** Read from any file that begins with it, the copy of a tree is the tree. */
  lemma {:induction false} ReadTreeBack(t: Tree, dup: bool, out: seq<Page>, file: seq<Page>)
    requires Ok(t, dup) && WriteTree(t, out).0 <= file
    ensures ReadTree(file, WriteTree(t, out).1) == Some(t)
    decreases t, 0
  {
    WritesCount(t, dup, out);
    match t
    case Leaf(nodes) =>
      var (o, ns) := WriteNodes(nodes, out);
      var p := |o|;
      assert o <= file && file[p] == LeafPage(p, ns);
      ReadNodesBack(nodes, dup, out, file, p);
    case Branch(keys, kids) =>
      var (o, ps) := WriteKids(kids, out);
      var p := |o|;
      assert o <= file && file[p] == BranchPage(p, keys, ps);
      ReadKidsBack(kids, dup, out, file, p);
  }

  lemma {:induction false} ReadKidsBack(kids: seq<Tree>, dup: bool, out: seq<Page>, file: seq<Page>, p: nat)
    requires KidsOk(kids, dup) && WriteKids(kids, out).0 <= file && |WriteKids(kids, out).0| <= p
    ensures ReadKids(file, p, WriteKids(kids, out).1) == Some(kids)
    decreases kids, 0
  {
    if kids != [] {
      var (o, r) := WriteTree(kids[0], out);
      WritesCount(kids[0], dup, out);
      KidsCount(kids[1..], dup, o);
      PrefixTrans(o, WriteKids(kids, out).0, file);
      ReadTreeBack(kids[0], dup, out, file);
      ReadKidsBack(kids[1..], dup, o, file, p);
      assert WriteKids(kids, out).1[1..] == WriteKids(kids[1..], o).1;
      assert kids == [kids[0]] + kids[1..];
    }
  }

  lemma {:induction false} ReadNodesBack(nodes: seq<Node>, dup: bool, out: seq<Page>, file: seq<Page>, p: nat)
    requires NodesOk(nodes, dup) && WriteNodes(nodes, out).0 <= file && |WriteNodes(nodes, out).0| <= p <= |file|
    ensures ReadNodes(file, p, WriteNodes(nodes, out).1) == Some(nodes)
    decreases nodes, 0
  {
    if nodes != [] {
      var (o, n) := WriteNode(nodes[0], out);
      NodeCount(nodes[0], dup, out);
      NodesCount(nodes[1..], dup, o);
      PrefixTrans(o, WriteNodes(nodes, out).0, file);
      ReadNodeBack(nodes[0], dup, out, file, p);
      ReadNodesBack(nodes[1..], dup, o, file, p);
      assert WriteNodes(nodes, out).1[1..] == WriteNodes(nodes[1..], o).1;
      assert nodes == [nodes[0]] + nodes[1..];
    }
  }

  lemma {:induction false} ReadNodeBack(n: Node, dup: bool, out: seq<Page>, file: seq<Page>, p: nat)
    requires NodeOk(n, dup) && WriteNode(n, out).0 <= file && |WriteNode(n, out).0| <= p && p <= |file|
    ensures ReadNode(file, p, WriteNode(n, out).1) == Some(n)
    decreases n, 1
  {
    match n
    case Plain(_) =>
    case Big(d, k) => OverBack(out, k, d, file);
    case Sub(_, s, r) =>
      if r.Some? {
        WritesCount(r.value, s, out);
        ReadTreeBack(r.value, s, out, file);
      }
  }

  lemma OverBack(out: seq<Page>, k: nat, d: int, file: seq<Page>)
    requires k > 0 && out + [OverPage(|out|, k, d)] + Tails(k - 1, d) <= file
    ensures file[|out|] == OverPage(|out|, k, d) && file[|out| + 1..|out| + k] == Tails(k - 1, d)
  {
    var w := out + [OverPage(|out|, k, d)] + Tails(k - 1, d);
    assert file[..|w|] == w;
    assert w[|out| + 1..] == Tails(k - 1, d);
    assert file[|out| + 1..|out| + k] == file[..|w|][|out| + 1..];
  }

  // ----- Numbers -----

  /** Every page that has a number is at that place of the file. */
  predicate NumberedAt(g: Page, k: nat) {
    match g
    case LeafPage(num, _) => num == k
    case BranchPage(num, _, _) => num == k
    case OverPage(num, _, _) => num == k
    case _ => true
  }

  ghost predicate Numbered(file: seq<Page>) { forall k :: 0 <= k < |file| ==> NumberedAt(file[k], k) }

  lemma NumberedMore(file: seq<Page>, g: Page)
    requires Numbered(file) && NumberedAt(g, |file|)
    ensures Numbered(file + [g])
  {
  }

  lemma NumberedTails(file: seq<Page>, k: nat, d: int)
    requires Numbered(file)
    ensures Numbered(file + Tails(k, d))
  {
  }

  lemma {:induction false} TreeNumbered(t: Tree, out: seq<Page>)
    requires Numbered(out)
    ensures Numbered(WriteTree(t, out).0)
    decreases t, 0
  {
    match t
    case Leaf(nodes) =>
      NodesNumbered(nodes, out);
      NumberedMore(WriteNodes(nodes, out).0, WriteTree(t, out).0[|WriteNodes(nodes, out).0|]);
    case Branch(_, kids) =>
      KidsNumbered(kids, out);
      NumberedMore(WriteKids(kids, out).0, WriteTree(t, out).0[|WriteKids(kids, out).0|]);
  }

  lemma {:induction false} KidsNumbered(kids: seq<Tree>, out: seq<Page>)
    requires Numbered(out)
    ensures Numbered(WriteKids(kids, out).0)
    decreases kids, 0
  {
    if kids != [] {
      TreeNumbered(kids[0], out);
      KidsNumbered(kids[1..], WriteTree(kids[0], out).0);
    }
  }

  lemma {:induction false} NodesNumbered(nodes: seq<Node>, out: seq<Page>)
    requires Numbered(out)
    ensures Numbered(WriteNodes(nodes, out).0)
    decreases nodes, 0
  {
    if nodes != [] {
      NodeNumbered(nodes[0], out);
      NodesNumbered(nodes[1..], WriteNode(nodes[0], out).0);
    }
  }

  lemma {:induction false} NodeNumbered(n: Node, out: seq<Page>)
    requires Numbered(out)
    ensures Numbered(WriteNode(n, out).0)
    decreases n, 1
  {
    match n
    case Plain(_) =>
    case Big(d, k) =>
      NumberedMore(out, OverPage(|out|, k, d));
      NumberedTails(out + [OverPage(|out|, k, d)], if k > 0 then k - 1 else 0, d);
    case Sub(_, _, r) => if r.Some? { TreeNumbered(r.value, out); }
  }

  /** The copy of a database, after the two meta pages: it reads back as the database, its pages stand where
    * their numbers say, and its root is its last page. */
  lemma CopyCorrect(t: Tree, metas: seq<Page>)
    requires Ok(t, false) && metas == [Meta, Meta]
    ensures var (file, root) := WriteTree(t, metas);
      ReadTree(file, root) == Some(t) && Numbered(file) && |file| == NUM_METAS + Count(t) && root == |file| - 1
  {
    WritesCount(t, false, metas);
    ReadTreeBack(t, false, metas, WriteTree(t, metas).0);
    TreeNumbered(t, metas);
  }

  // ----- mdb_env_cwalk -----

  /** A page on the cursor's stack.  For a branch, `done` holds the new numbers of the children done. */
  datatype Level = Level(t: Tree, ki: nat, done: seq<nat>)

  /** What is still written after the page on top of `stack` was given number pg: the rest of each
    * parent, and the parent itself. */
  function Up(stack: seq<Level>, out: seq<Page>, pg: nat): (seq<Page>, nat)
    decreases |stack|
  {
    if stack == [] then (out, pg)
    else
      var l := stack[|stack| - 1];
      if l.t.Leaf? || l.ki >= |l.t.kids| then (out, pg)
      else
        var (o, ps) := WriteKids(l.t.kids[l.ki + 1..], out);
        Up(stack[..|stack| - 1], o + [BranchPage(|o|, l.t.keys, l.done + [pg] + ps)], |o|)
  }

  function UpFrom(stack: seq<Level>, w: (seq<Page>, nat)): (seq<Page>, nat) { Up(stack, w.0, w.1) }

  /** A branch whose children up to ki are done. */
  function BranchRest(stack: seq<Level>, out: seq<Page>, t: Tree, ki: nat, done: seq<nat>): (seq<Page>, nat)
    requires t.Branch? && ki <= |t.kids|
  {
    var (o, ps) := WriteKids(t.kids[ki..], out);
    Up(stack, o + [BranchPage(|o|, t.keys, done + ps)], |o|)
  }

  lemma UpUnfold(stack: seq<Level>, l: Level, out: seq<Page>, pg: nat)
    requires l.t.Branch? && l.ki < |l.t.kids|
    ensures Up(stack + [l], out, pg) == BranchRest(stack, out, l.t, l.ki + 1, l.done + [pg])
  {
    assert (stack + [l])[..|stack|] == stack;
  }

  /** Going down to child ki. */
  lemma EnterKid(stack: seq<Level>, out: seq<Page>, t: Tree, ki: nat, done: seq<nat>)
    requires t.Branch? && ki < |t.kids|
    ensures BranchRest(stack, out, t, ki, done) == UpFrom(stack + [Level(t, ki, done)], WriteTree(t.kids[ki], out))
  {
    var (o, p) := WriteTree(t.kids[ki], out);
    UpUnfold(stack, Level(t, ki, done), o, p);
    assert t.kids[ki..][1..] == t.kids[ki + 1..];
    var (o', ps) := WriteKids(t.kids[ki + 1..], o);
    assert done + ([p] + ps) == done + [p] + ps;
  }

  lemma EnterBranch(stack: seq<Level>, out: seq<Page>, t: Tree)
    requires t.Branch? && t.kids != []
    ensures UpFrom(stack, WriteTree(t, out)) == UpFrom(stack + [Level(t, 0, [])], WriteTree(t.kids[0], out))
  {
    EnterKid(stack, out, t, 0, []);
    assert t.kids[0..] == t.kids;
    var (o, ps) := WriteKids(t.kids, out);
    assert [] + ps == ps;
  }

  lemma LastKidDone(stack: seq<Level>, out: seq<Page>, t: Tree, done: seq<nat>)
    requires t.Branch?
    ensures BranchRest(stack, out, t, |t.kids|, done) == Up(stack, out + [BranchPage(|out|, t.keys, done)], |out|)
  {
    assert t.kids[|t.kids|..] == [];
    assert done + [] == done;
  }

  function Flatten(parts: seq<seq<Page>>): seq<Page> {
    if parts == [] then [] else Flatten(parts[..|parts| - 1]) + parts[|parts| - 1]
  }

  lemma FlattenMore(parts: seq<seq<Page>>, part: seq<Page>)
    ensures Flatten(parts + [part]) == Flatten(parts) + part
  {
    assert (parts + [part])[..|parts|] == parts;
  }

  /** The levels below the top of the stack point to the next level. */
  ghost predicate StackOk(stack: seq<Level>, dup: bool) {
    forall i :: 0 <= i < |stack| ==> stack[i].t.Branch? && Ok(stack[i].t, dup) && stack[i].ki < |stack[i].t.kids|
  }

  /** What the main loop keeps: the pages written and the stack lead to the same end, w. */
  ghost predicate Walking(front: seq<Level>, top: Level, out: seq<Page>, w: (seq<Page>, nat), dup: bool) {
    && StackOk(front, dup) && Ok(top.t, dup)
    && if top.t.Leaf? then w == UpFrom(front, WriteTree(top.t, out))
       else top.ki < |top.t.kids| && w == BranchRest(front, out, top.t, top.ki + 1, top.done)
  }

  lemma {:induction false} KidsOkFrom(kids: seq<Tree>, dup: bool, k: nat)
    requires KidsOk(kids, dup) && k <= |kids|
    ensures KidsOk(kids[k..], dup) && (k < |kids| ==> Ok(kids[k], dup))
    decreases k
  {
    if k > 0 {
      KidsOkFrom(kids[1..], dup, k - 1);
      assert kids[1..][k - 1..] == kids[k..];
    } else {
      assert kids[0..] == kids;
    }
  }

  lemma {:induction false} UpGrows(stack: seq<Level>, out: seq<Page>, pg: nat, dup: bool)
    requires StackOk(stack, dup)
    ensures |out| <= |Up(stack, out, pg).0|
    decreases |stack|
  {
    if stack != [] {
      var l := stack[|stack| - 1];
      KidsOkFrom(l.t.kids, dup, l.ki + 1);
      KidsCount(l.t.kids[l.ki + 1..], dup, out);
      var (o, ps) := WriteKids(l.t.kids[l.ki + 1..], out);
      UpGrows(stack[..|stack| - 1], o + [BranchPage(|o|, l.t.keys, l.done + [pg] + ps)], |o|, dup);
    }
  }

  /** There is a page still to be written, and for a leaf all of its own. */
  lemma PagesLeft(front: seq<Level>, top: Level, out: seq<Page>, w: (seq<Page>, nat), dup: bool)
    requires Walking(front, top, out, w, dup)
    ensures |out| < |w.0| && (top.t.Leaf? ==> |out| + Count(top.t) <= |w.0|)
  {
    if top.t.Leaf? {
      WritesCount(top.t, dup, out);
      UpGrows(front, WriteTree(top.t, out).0, WriteTree(top.t, out).1, dup);
    } else {
      KidsOkFrom(top.t.kids, dup, top.ki + 1);
      KidsCount(top.t.kids[top.ki + 1..], dup, out);
      var (o, ps) := WriteKids(top.t.kids[top.ki + 1..], out);
      UpGrows(front, o + [BranchPage(|o|, top.t.keys, top.done + ps)], |o|, dup);
    }
  }

  /** A page has been written and popped; its parent is on top again. */
  lemma Popped(stack: seq<Level>, out: seq<Page>, pg: nat, w: (seq<Page>, nat), dup: bool)
    requires StackOk(stack, dup) && stack != [] && w == Up(stack, out, pg)
    ensures var l := stack[|stack| - 1]; Walking(stack[..|stack| - 1], l.(done := l.done + [pg]), out, w, dup)
  {
    hide Up, Ok, WriteTree, WriteKids, BranchRest;
    var l := stack[|stack| - 1];
    assert stack == stack[..|stack| - 1] + [l];
    UpUnfold(stack[..|stack| - 1], l, out, pg);
  }

  /** The nodes copied so far and what is left of the leaf. */
  function NodesRest(ns: seq<NewNode>, rest: seq<Node>, out: seq<Page>): (seq<Page>, seq<NewNode>) {
    var (o, more) := WriteNodes(rest, out);
    (o, ns + more)
  }

  lemma NextNode(ns: seq<NewNode>, nodes: seq<Node>, i: nat, out: seq<Page>, dup: bool)
    requires i < |nodes| && NodesOk(nodes[i..], dup)
    ensures NodeOk(nodes[i], dup) && NodesOk(nodes[i + 1..], dup)
    ensures CountNodes(nodes[i..]) == CountNode(nodes[i]) + CountNodes(nodes[i + 1..])
    ensures var (o, n) := WriteNode(nodes[i], out); NodesRest(ns, nodes[i..], out) == NodesRest(ns + [n], nodes[i + 1..], o)
  {
    assert nodes[i..][1..] == nodes[i + 1..];
    var (o, n) := WriteNode(nodes[i], out);
    var (o', more) := WriteNodes(nodes[i + 1..], o);
    assert ns + ([n] + more) == ns + [n] + more;
  }

  class Copier {
    const cap: nat  // pages in a buffer: MDB_WBUF
    var buf: seq<Page>  // what is in the buffer being filled
    var handed: seq<seq<Page>>  // buffers given to the writer, each with its overflow tail
    var next: nat  // mc_next_pgno

    ghost function File(): seq<Page>
      reads this
    { Flatten(handed) + buf }

    ghost predicate Valid()
      reads this
    { |buf| <= cap && cap >= NUM_METAS && next == |File()| }

    constructor (cap: nat)
      requires cap >= NUM_METAS
      ensures Valid() && File() == [Meta, Meta] && this.cap == cap
    {
      this.cap := cap;
      buf, handed, next := [Meta, Meta], [], NUM_METAS;
    }

    /** mdb_env_cthr_toggle: hand over the buffer and its tail. */
    method Toggle(tail: seq<Page>)
      requires |buf| <= cap
      modifies this`buf, this`handed
      ensures buf == [] && File() == old(File()) + tail
    {
      FlattenMore(handed, buf + tail);
      handed := handed + [buf + tail];
      buf := [];
      assert File() == Flatten(handed);
    }

    /** Put a page into the buffer, after handing over a full one: it never holds more than it can. */
    method PutPage(g: Page)
      requires |buf| <= cap && cap > 0
      modifies this`buf, this`handed
      ensures |buf| <= cap && File() == old(File()) + [g]
    {
      if |buf| >= cap {
        Toggle([]);
        assert File() == old(File());
      }
      buf := buf + [g];
    }

    /** The nodes of a leaf: overflow pages and sub-databases are copied first. */
    method CopyNodes(nodes: seq<Node>, dup: bool) returns (ns: seq<NewNode>)
      requires Valid() && NodesOk(nodes, dup)
      modifies this`buf, this`handed, this`next
      ensures Valid() && (File(), ns) == WriteNodes(nodes, old(File()))
      decreases CountNodes(nodes), |nodes|, 1
    {
      ns := [];
      var i := 0;
      ghost var out := File();
      assert nodes[0..] == nodes;
      assert [] + WriteNodes(nodes, out).1 == WriteNodes(nodes, out).1;
      while i < |nodes|
        invariant 0 <= i <= |nodes| && Valid() && NodesOk(nodes[i..], dup)
        invariant WriteNodes(nodes, out) == NodesRest(ns, nodes[i..], File())
        invariant CountNodes(nodes[i..]) <= CountNodes(nodes)
      {
        NextNode(ns, nodes, i, File(), dup);
        var n := CopyNode(nodes[i], dup);
        ns := ns + [n];
        i := i + 1;
      }
      assert nodes[i..] == [];
      assert ns + [] == ns;
    }

    method CopyNode(n: Node, dup: bool) returns (r: NewNode)
      requires Valid() && NodeOk(n, dup)
      modifies this`buf, this`handed, this`next
      ensures Valid() && (File(), r) == WriteNode(n, old(File()))
      decreases CountNode(n), 0, 2
    {
      match n
      case Plain(d) => r := NewPlain(d);
      case Big(d, k) =>
        r := NewBig(d, k, next);
        PutPage(OverPage(next, k, d));
        next := next + k;
        if k > 1 { Toggle(Tails(k - 1, d)); } else { assert File() == File() + Tails(0, d); }
      case Sub(d, s, root) =>
        match root {
          case None => r := NewSub(d, s, None);
          case Some(t) =>
            var p := Walk(t, s);
            r := NewSub(d, s, Some(p));
        }
    }

    /** Write a page of a tree under the next number. */
    method PutNext(g: Page)
      requires Valid()
      modifies this`buf, this`handed, this`next
      ensures Valid() && File() == old(File()) + [g]
    {
      PutPage(g);
      next := next + 1;
    }

    /** mdb_env_cwalk: depth first with a stack of pages. */
    method Walk(t: Tree, dup: bool) returns (pg: nat)
      requires Valid() && Ok(t, dup)
      modifies this`buf, this`handed, this`next
      ensures Valid() && (File(), pg) == WriteTree(t, old(File()))
      decreases Count(t), 0, 1
    {
      ghost var out0, w := File(), WriteTree(t, File());
      WritesCount(t, dup, out0);
      var front, top := Descend([], t, dup, w, File());
      while true
        invariant Valid() && Walking(front, top, File(), w, dup) && |out0| <= |File()|
        decreases |w.0| - |File()|, if top.t.Leaf? then 0 else 1
      {
        PagesLeft(front, top, File(), w, dup);
        var g;
        if top.t.Leaf? {
          NodesCount(top.t.nodes, dup, File());
          var ns := CopyNodes(top.t.nodes, dup);
          g := LeafPage(next, ns);
        } else {
          var ki := top.ki + 1;
          if ki < |top.t.kids| {
            KidsOkFrom(top.t.kids, dup, ki);
            EnterKid(front, File(), top.t, ki, top.done);
            front, top := Descend(front + [Level(top.t, ki, top.done)], top.t.kids[ki], dup, w, File());
            continue;
          }
          g := BranchPage(next, top.t.keys, top.done);
          LastKidDone(front, File(), top.t, top.done);
        }
        pg := next;
        PutNext(g);
        assert w == Up(front, File(), pg);
        if front == [] { break; }
        Popped(front, File(), pg, w, dup);
        var l := front[|front| - 1];
        front, top := front[..|front| - 1], l.(done := l.done + [pg]);
      }
    }
  }

  /** Push the branch pages on the way down to the first leaf. */
  method Descend(front0: seq<Level>, t0: Tree, dup: bool, ghost w: (seq<Page>, nat), ghost out: seq<Page>)
    returns (front: seq<Level>, top: Level)
    requires StackOk(front0, dup) && Ok(t0, dup) && w == UpFrom(front0, WriteTree(t0, out))
    ensures Walking(front, top, out, w, dup) && top.t.Leaf?
  {
    front := front0;
    var t := t0;
    while t.Branch?
      invariant StackOk(front, dup) && Ok(t, dup) && w == UpFrom(front, WriteTree(t, out))
      decreases t
    {
      KidsOkFrom(t.kids, dup, 0);
      EnterBranch(front, out, t);
      front := front + [Level(t, 0, [])];
      t := t.kids[0];
    }
    top := Level(t, 0, []);
  }
}
