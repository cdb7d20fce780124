/** linked_items.c: an intrusive doubly linked list, and its sort by relinking. */
module LinkedItems {

  class Item<T> {
    const data: T
    var prev: Item?<T>
    var next: Item?<T>

    constructor (data: T)
      ensures this.data == data && prev == null && next == null
    {
      this.data := data;
      prev, next := null, null;
    }
  }

  function NextIn<T>(s: seq<Item<T>>, i: nat): Item?<T> { if i + 1 < |s| then s[i + 1] else null }
  function PrevIn<T>(s: seq<Item<T>>, i: nat): Item?<T> { if 0 < i <= |s| then s[i - 1] else null }

  predicate Distinct<T(==)>(s: seq<T>) { forall i, j :: 0 <= i < j < |s| ==> s[i] != s[j] }

  /** The items of s are linked in this order, both ways. */
  ghost predicate Chain<T>(s: seq<Item<T>>)
    reads s
  {
    Distinct(s) && forall i :: 0 <= i < |s| ==> Linked(s, i)
  }

  ghost predicate Linked<T>(s: seq<Item<T>>, i: nat)
    requires i < |s|
    reads s
  { s[i].next == NextIn(s, i) && s[i].prev == PrevIn(s, i) }

  function Inserted<T>(s: seq<T>, i: nat, x: T): seq<T>
    requires i <= |s|
  { s[..i] + [x] + s[i..] }

  function Removed<T>(s: seq<T>, i: nat): seq<T>
    requires i < |s|
  { s[..i] + s[i + 1..] }

  lemma InsertedAt<T>(s: seq<T>, i: nat, x: T, t: seq<T>)
    requires i <= |s| && t == Inserted(s, i, x)
    ensures |t| == |s| + 1 && t[i] == x
    ensures forall k :: 0 <= k < i ==> t[k] == s[k]
    ensures forall k :: i < k < |t| ==> t[k] == s[k - 1]
  {
  }

  lemma InsertedDistinct<T>(s: seq<T>, i: nat, x: T, t: seq<T>)
    requires Distinct(s) && x !in s && i <= |s| && t == Inserted(s, i, x)
    ensures Distinct(t)
  {
    InsertedAt(s, i, x, t);
    hide Inserted;
    assert forall k :: 0 <= k < |s| ==> s[k] in s;
  }

  /** linked_item_append: item comes after prev; without one it is alone. */
  method Append<T>(prev: Item?<T>, item: Item<T>, ghost s: seq<Item<T>>, ghost i: nat)
    requires Chain(s) && item !in s && (prev != null ==> i < |s| && s[i] == prev)
    modifies item, s
    ensures prev != null ==> Chain(Inserted(s, i + 1, item))
    ensures prev == null ==> Chain([item]) && Chain(s)
  {
    item.prev, item.next := null, null;
    if prev != null {
      Link(prev, item, s, i);
    }
  }

  method Link<T>(prev: Item<T>, item: Item<T>, ghost s: seq<Item<T>>, ghost i: nat)
    requires Chain(s) && item !in s && i < |s| && s[i] == prev && item.next == null
    modifies item, s
    ensures Chain(Inserted(s, i + 1, item))
  {
    hide Inserted, Distinct;
    ghost var t := Inserted(s, i + 1, item);
    InsertedAt(s, i + 1, item, t);
    InsertedDistinct(s, i + 1, item, t);
    assert forall k :: 0 <= k < |s| ==> s[k] in s;
    Others(s, i);
    assert Linked(s, i);
    var after := prev.next;
    if after != null {
      Others(s, i + 1);
      item.next := after;
      after.prev := item;
    }
    prev.next := item;
    item.prev := prev;
    forall k | 0 <= k < |t| ensures Linked(t, k) {
      if k <= i { assert old(Linked(s, k)); } else if k > i + 1 { assert old(Linked(s, k - 1)); }
    }
  }

  lemma Others<T>(s: seq<T>, i: nat)
    requires Distinct(s) && i < |s|
    ensures forall k :: 0 <= k < |s| && k != i ==> s[k] != s[i]
  {
  }

  /** linked_item_remove: the neighbours are linked; the item keeps its own links. */
  method Remove<T>(remove: Item<T>, ghost s: seq<Item<T>>, ghost i: nat)
    requires Chain(s) && i < |s| && s[i] == remove
    modifies s
    ensures Chain(Removed(s, i)) && remove.prev == old(remove.prev) && remove.next == old(remove.next)
  {
    hide Removed, Distinct;
    ghost var t := Removed(s, i);
    RemovedAt(s, i, t);
    RemovedDistinct(s, i, t);
    Others(s, i);
    assert Linked(s, i);
    var before, after := remove.prev, remove.next;
    if i > 0 { Others(s, i - 1); }
    if i + 1 < |s| { Others(s, i + 1); }
    if before != null {
      if after != null {
        before.next := after;
        after.prev := before;
      } else {
        before.next := null;
      }
    } else if after != null {
      after.prev := null;
    }
    forall k | 0 <= k < |t| ensures Linked(t, k) { assert old(Linked(s, if k < i then k else k + 1)); }
  }

  lemma RemovedAt<T>(s: seq<T>, i: nat, t: seq<T>)
    requires i < |s| && t == Removed(s, i)
    ensures |t| == |s| - 1
    ensures forall k :: 0 <= k < i ==> t[k] == s[k]
    ensures forall k :: i <= k < |t| ==> t[k] == s[k + 1]
  {
  }

  lemma RemovedDistinct<T>(s: seq<T>, i: nat, t: seq<T>)
    requires Distinct(s) && i < |s| && t == Removed(s, i)
    ensures Distinct(t) && s[i] !in t
  {
    RemovedAt(s, i, t);
  }

  // ----- Orders -----

  /** What a compare function must be: a > b excludes b > a, and <= is transitive. */
  ghost predicate StrictWeakOrder<T(!new)>(cmp: (T, T) -> int) {
    && (forall a, b :: cmp(a, b) > 0 ==> cmp(b, a) <= 0)
    && (forall a, b, c :: cmp(a, b) <= 0 && cmp(b, c) <= 0 ==> cmp(a, c) <= 0)
  }

  predicate Greater<T>(cmp: (T, T) -> int, a: Item<T>, b: Item<T>) { cmp(a.data, b.data) > 0 }

  predicate Sorted<T>(s: seq<Item<T>>, cmp: (T, T) -> int) { forall i, j :: 0 <= i < j < |s| ==> !Greater(cmp, s[i], s[j]) }

  predicate Before<T>(s: seq<Item<T>>, x: Item<T>, y: Item<T>) { exists i, j :: 0 <= i < j < |s| && s[i] == x && s[j] == y }

  /** The same items; two that were not out of order have kept their order. */
  ghost predicate Reordered<T>(s: seq<Item<T>>, t: seq<Item<T>>, cmp: (T, T) -> int) {
    && multiset(t) == multiset(s)
    && forall i, j :: 0 <= i < j < |s| && !Greater(cmp, s[i], s[j]) ==> Before(t, s[i], s[j])
  }

  /** Neighbours i and i + 1 change places. */
  function Swapped<T>(s: seq<T>, i: nat): seq<T>
    requires i + 1 < |s|
  { s[..i] + [s[i + 1], s[i]] + s[i + 2..] }

  lemma SwappedAt<T>(s: seq<T>, i: nat, t: seq<T>)
    requires i + 1 < |s| && t == Swapped(s, i)
    ensures |t| == |s| && t[i] == s[i + 1] && t[i + 1] == s[i] && multiset(t) == multiset(s)
    ensures forall k :: 0 <= k < |s| && k != i && k != i + 1 ==> t[k] == s[k]
    ensures t == Inserted(Removed(s, i), i + 1, s[i])
  {
    SwappedSame(s, i, t);
    SwappedRelinked(s, i, t);
  }

  lemma SwappedSame<T>(s: seq<T>, i: nat, t: seq<T>)
    requires i + 1 < |s| && t == Swapped(s, i)
    ensures multiset(t) == multiset(s)
  {
    var a, x, y, b := s[..i], s[i], s[i + 1], s[i + 2..];
    assert s == a + [x, y] + b;
    Parts(a, [x, y], b);
    Parts(a, [y, x], b);
    assert multiset([x, y]) == multiset([y, x]);
  }

  lemma Parts<T>(a: seq<T>, m: seq<T>, b: seq<T>)
    ensures multiset(a + m + b) == multiset(a) + multiset(m) + multiset(b)
  {
    assert multiset(a + m + b) == multiset(a + m) + multiset(b);
  }

  lemma SwappedRelinked<T>(s: seq<T>, i: nat, t: seq<T>)
    requires i + 1 < |s| && t == Swapped(s, i)
    ensures t == Inserted(Removed(s, i), i + 1, s[i])
  {
    var r := Removed(s, i);
    assert r[..i + 1] == s[..i] + [s[i + 1]] && r[i + 1..] == s[i + 2..];
  }

  lemma SwapReorders<T>(s0: seq<Item<T>>, s: seq<Item<T>>, i: nat, t: seq<Item<T>>, cmp: (T, T) -> int)
    requires Reordered(s0, s, cmp) && Distinct(s) && i + 1 < |s| && Greater(cmp, s[i], s[i + 1]) && t == Swapped(s, i)
    ensures Reordered(s0, t, cmp)
  {
    SwappedAt(s, i, t);
    forall m, n | 0 <= m < n < |s0| && !Greater(cmp, s0[m], s0[n]) ensures Before(t, s0[m], s0[n]) {
      var x, y := s0[m], s0[n];
      assert Before(s, x, y);
      var k, l :| 0 <= k < l < |s| && s[k] == x && s[l] == y;
      var k', l' := Place(i, k), Place(i, l);
      assert t[k'] == x && t[l'] == y && k' < l';
    }
  }

  /** Where an element goes in a swap. */
  function Place(i: nat, k: nat): nat { if k == i then i + 1 else if k == i + 1 then i else k }

  // ----- Inversions -----

  function Larger<T>(s: seq<Item<T>>, y: Item<T>, cmp: (T, T) -> int): nat {
    if s == [] then 0 else Larger(s[..|s| - 1], y, cmp) + (if Greater(cmp, s[|s| - 1], y) then 1 else 0)
  }

  function Inversions<T>(s: seq<Item<T>>, cmp: (T, T) -> int): nat {
    if s == [] then 0 else Inversions(s[..|s| - 1], cmp) + Larger(s[..|s| - 1], s[|s| - 1], cmp)
  }

  lemma LargerMore<T>(s: seq<Item<T>>, x: Item<T>, y: Item<T>, cmp: (T, T) -> int)
    ensures Larger(s + [x], y, cmp) == Larger(s, y, cmp) + (if Greater(cmp, x, y) then 1 else 0)
  {
    assert (s + [x])[..|s|] == s;
  }

  lemma InversionsMore<T>(s: seq<Item<T>>, x: Item<T>, cmp: (T, T) -> int)
    ensures Inversions(s + [x], cmp) == Inversions(s, cmp) + Larger(s, x, cmp)
  {
    assert (s + [x])[..|s|] == s;
  }

  lemma {:induction false} SwapLarger<T>(p: seq<Item<T>>, a: Item<T>, b: Item<T>, q: seq<Item<T>>, y: Item<T>, cmp: (T, T) -> int)
    ensures Larger(p + [a, b] + q, y, cmp) == Larger(p + [b, a] + q, y, cmp)
    decreases |q|
  {
    if q == [] {
      assert p + [a, b] + q == p + [a] + [b] && p + [b, a] + q == p + [b] + [a];
      LargerMore(p + [a], b, y, cmp);
      LargerMore(p, a, y, cmp);
      LargerMore(p + [b], a, y, cmp);
      LargerMore(p, b, y, cmp);
    } else {
      var q', z := q[..|q| - 1], q[|q| - 1];
      assert p + [a, b] + q == p + [a, b] + q' + [z] && p + [b, a] + q == p + [b, a] + q' + [z];
      SwapLarger(p, a, b, q', y, cmp);
      LargerMore(p + [a, b] + q', z, y, cmp);
      LargerMore(p + [b, a] + q', z, y, cmp);
    }
  }

  /** Swapping two neighbours that are out of order removes exactly one inversion. */
  lemma {:induction false} SwapInversions<T>(p: seq<Item<T>>, a: Item<T>, b: Item<T>, q: seq<Item<T>>, cmp: (T, T) -> int)
    requires Greater(cmp, a, b) && !Greater(cmp, b, a)
    ensures Inversions(p + [b, a] + q, cmp) == Inversions(p + [a, b] + q, cmp) - 1
    decreases |q|
  {
    if q == [] {
      assert p + [a, b] + q == p + [a] + [b] && p + [b, a] + q == p + [b] + [a];
      InversionsMore(p + [a], b, cmp);
      InversionsMore(p, a, cmp);
      InversionsMore(p + [b], a, cmp);
      InversionsMore(p, b, cmp);
      LargerMore(p, a, b, cmp);
      LargerMore(p, b, a, cmp);
    } else {
      var q', z := q[..|q| - 1], q[|q| - 1];
      assert p + [a, b] + q == p + [a, b] + q' + [z] && p + [b, a] + q == p + [b, a] + q' + [z];
      SwapInversions(p, a, b, q', cmp);
      SwapLarger(p, a, b, q', z, cmp);
      InversionsMore(p + [a, b] + q', z, cmp);
      InversionsMore(p + [b, a] + q', z, cmp);
    }
  }

  lemma OneLess<T>(s: seq<Item<T>>, i: nat, cmp: (T, T) -> int)
    requires i + 1 < |s| && Greater(cmp, s[i], s[i + 1]) && !Greater(cmp, s[i + 1], s[i])
    ensures Inversions(Swapped(s, i), cmp) == Inversions(s, cmp) - 1
  {
    hide Inversions, Greater;
    assert s == s[..i] + [s[i], s[i + 1]] + s[i + 2..];
    SwapInversions(s[..i], s[i], s[i + 1], s[i + 2..], cmp);
  }

  /** Neighbours in order: all in order. */
  lemma {:induction false} AllSorted<T(!new)>(s: seq<Item<T>>, cmp: (T, T) -> int, i: nat, j: nat)
    requires StrictWeakOrder(cmp) && i < j < |s| && forall k :: 0 <= k < |s| - 1 ==> !Greater(cmp, s[k], s[k + 1])
    ensures !Greater(cmp, s[i], s[j])
    decreases j
  {
    if i + 1 < j { AllSorted(s, cmp, i, j - 1); }
    assert !Greater(cmp, s[j - 1], s[j - 1 + 1]);
  }

  // ----- linked_item_sort -----

  /** last and curr are out of order: last is put behind curr. */
  method Exchange<T(!new)>(last: Item<T>, curr: Item<T>, cmp: (T, T) -> int, ghost s0: seq<Item<T>>, ghost s: seq<Item<T>>, ghost i: nat)
    returns (ghost t: seq<Item<T>>)
    requires Chain(s) && i + 1 < |s| && s[i] == last && s[i + 1] == curr && Greater(cmp, last, curr) && StrictWeakOrder(cmp)
    requires Reordered(s0, s, cmp)
    modifies s
    ensures t == Swapped(s, i) && Chain(t) && Reordered(s0, t, cmp) && Inversions(t, cmp) == Inversions(s, cmp) - 1
  {
    hide Chain, Reordered, Swapped, Inserted, Removed, Inversions;
    t := Swapped(s, i);
    SwappedAt(s, i, t);
    ChainDistinct(s);
    SwapReorders(s0, s, i, t, cmp);
    OneLess(s, i, cmp);
    ghost var r := Removed(s, i);
    RemovedAt(s, i, r);
    RemovedDistinct(s, i, r);
    Remove(last, s, i);
    Append(curr, last, r, i);
  }

  lemma ChainDistinct<T>(s: seq<Item<T>>)
    requires Chain(s)
    ensures Distinct(s)
  {
  }

  lemma ChainLinks<T>(s: seq<Item<T>>, i: nat)
    requires Chain(s) && i < |s|
    ensures Linked(s, i)
  {
  }

  /** One pass over the chain: neighbours that are out of order change places. */
  method Pass<T(!new)>(start: Item<T>, cmp: (T, T) -> int, ghost s0: seq<Item<T>>, ghost s1: seq<Item<T>>)
    returns (head: Item<T>, changed: nat, ghost s: seq<Item<T>>)
    requires StrictWeakOrder(cmp) && s1 != [] && Chain(s1) && start == s1[0] && Reordered(s0, s1, cmp) && forall x :: x in s1 ==> x in s0
    modifies s0
    ensures s != [] && Chain(s) && head == s[0] && Reordered(s0, s, cmp) && (forall x :: x in s ==> x in s0)
    ensures if changed == 0 then Inversions(s, cmp) == Inversions(s1, cmp) else Inversions(s, cmp) < Inversions(s1, cmp)
    ensures changed == 0 ==> forall k :: 0 <= k < |s| - 1 ==> !Greater(cmp, s[k], s[k + 1])
  {
    hide Chain, Reordered, Inversions, Distinct, Swapped, StrictWeakOrder;
    s, head, changed := s1, start, 0;
    var last: Item?<T>, curr: Item?<T> := null, head;
    ghost var i := 0;
    while curr != null
      invariant s != [] && Chain(s) && head == s[0] && Reordered(s0, s, cmp) && (forall x :: x in s ==> x in s0)
      invariant 0 <= i <= |s| && curr == (if i < |s| then s[i] else null) && last == PrevIn(s, i)
      invariant if changed == 0 then Inversions(s, cmp) == Inversions(s1, cmp) else Inversions(s, cmp) < Inversions(s1, cmp)
      invariant changed == 0 ==> forall k :: 0 <= k < i - 1 ==> !Greater(cmp, s[k], s[k + 1])
      decreases Inversions(s, cmp), |s| - i
    {
      ghost var moved := false;
      if last != null {
        var comp := cmp(last.data, curr.data);
        if comp > 0 {
          if last == head { head := curr; }
          Neighbours(s, i - 1);
          SwappedAt(s, i - 1, Swapped(s, i - 1));
          assert forall k :: 0 <= k < |s| ==> s[k] in s;
          s := Exchange(last, curr, cmp, s0, s, i - 1);
          changed, moved := changed + 1, true;
          ChainLinks(s, i - 1);
        }
      }
      if !moved {
        ChainLinks(s, i);
        i := i + 1;
      }
      last, curr := curr, curr.next;
    }
  }

  /** linked_item_sort, for any strict weak order: it ends, and leaves a sorted chain of the same items that
    * keeps the order of those that compare as equal, and returns its first item. */
  method Sort<T(!new)>(start: Item?<T>, cmp: (T, T) -> int, ghost s0: seq<Item<T>>) returns (head: Item?<T>, ghost s: seq<Item<T>>)
    requires StrictWeakOrder(cmp) && Chain(s0) && start == if s0 == [] then null else s0[0]
    modifies s0
    ensures Chain(s) && head == if s == [] then null else s[0]
    ensures Sorted(s, cmp) && Reordered(s0, s, cmp)
  {
    hide Chain, Reordered, Inversions, Distinct, StrictWeakOrder;
    s, head := s0, start;
    SameOrder(s0, cmp);
    if start == null { return; }
    while true
      invariant s != [] && Chain(s) && head == s[0] && Reordered(s0, s, cmp) && (forall x :: x in s ==> x in s0)
      decreases Inversions(s, cmp)
    {
      var changed;
      head, changed, s := Pass(head, cmp, s0, s);
      if changed == 0 { break; }
    }
    forall i, j | 0 <= i < j < |s| ensures !Greater(cmp, s[i], s[j]) { AllSorted(s, cmp, i, j); }
  }

  lemma SameOrder<T>(s: seq<Item<T>>, cmp: (T, T) -> int)
    ensures Reordered(s, s, cmp)
  {
  }

  lemma Neighbours<T>(s: seq<Item<T>>, i: nat)
    requires Chain(s) && i + 1 < |s|
    ensures s[i] == s[0] <==> i == 0
  {
  }
}
