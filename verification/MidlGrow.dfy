/** ID lists that grow (midl.c), and the sorted lists of (id, page) pairs that hold a transaction's dirty
  * pages. */
module MidlGrow {
  import opened Midl

  const UM_MAX := 0x1_FFFF  // MDB_IDL_UM_MAX
  const UINT_MAX := 0xFFFF_FFFF

  /** n | MDB_IDL_UM_MAX */
  function OrUmMax(n: nat): (r: nat)
    ensures n <= r && UM_MAX <= r
  { n / 0x2_0000 * 0x2_0000 + UM_MAX }

  /** The allocation that mdb_midl_need asks for: a quarter more, rounded to 256 entries. */
  function Rounded(n: nat): (r: nat)
    ensures n + 2 <= r <= n + n / 4 + 258
  { (n + n / 4 + 258) / 256 * 256 }

  /** An MDB_IDL and its allocation: buf[0] is the room for ids, the list is at 1. */
  class Idl {
    var buf: array<nat>

    ghost predicate Valid()
      reads this, buf
    { buf.Length >= 2 && buf.Length == buf[0] + 2 && buf[1] <= buf[0] }

    ghost function Contents(): seq<nat>
      requires Valid()
      reads this, buf
    { Ids(buf, 1) }

    function Room(): nat
      requires buf.Length > 0
      reads this, buf
    { buf[0] }

    constructor (num: nat)
      ensures Valid() && fresh(buf) && Contents() == [] && Room() == num
    {
      var b := new nat[num + 2];
      b[0], b[1] := num, 0;
      buf := b;
    }

    /** realloc, and the new size in front. */
    method Realloc(room: nat)
      requires Valid() && |Contents()| <= room
      modifies this, buf
      ensures Valid() && fresh(buf) && Room() == room && Contents() == old(Contents())
    {
      ghost var was := Contents();
      var b := new nat[room + 2];
      b[0] := room;
      var i := 1;
      while i <= buf[1] + 1
        invariant buf == old(buf) && Valid() && buf[..] == old(buf[..])
        invariant 1 <= i <= buf[1] + 2 && b[0] == room && b.Length == room + 2
        invariant forall x :: 1 <= x < i ==> b[x] == buf[x]
      {
        b[i] := buf[i];
        i := i + 1;
      }
      buf := b;
      assert Contents() == was;
    }

    /** mdb_midl_need: room for num more ids. */
    method Need(num: nat)
      requires Valid() && |Contents()| + num <= 0xC000_0000
      modifies this, buf
      ensures Valid() && (buf == old(buf) || fresh(buf)) && Contents() == old(Contents())
      ensures Room() >= |Contents()| + num && Room() >= old(Room())
    {
      var n := num + buf[1];
      if n > buf[0] {
        assert n + n / 4 + 258 <= UINT_MAX;
        Realloc(Rounded(n) - 2);
      }
    }

    /** mdb_midl_append. */
    method Append(id: nat)
      requires Valid()
      modifies this, buf
      ensures Valid() && (buf == old(buf) || fresh(buf)) && Contents() == old(Contents()) + [id]
    {
      if buf[1] >= buf[0] { Realloc(buf[0] + UM_MAX); }
      ghost var was := Contents();
      buf[1] := buf[1] + 1;
      buf[1 + buf[1]] := id;
      assert Contents() == was + [id];
    }

    /** mdb_midl_append_list. */
    method AppendList(app: Idl)
      requires Valid() && app.Valid() && app != this && app.buf != buf
      modifies this, buf
      ensures Valid() && (buf == old(buf) || fresh(buf)) && Contents() == old(Contents()) + old(app.Contents())
    {
      var n := app.buf[1];
      if buf[1] + n >= buf[0] { Realloc(buf[0] + n); }
      AddAll(app, n);
    }

    method AddAll(app: Idl, n: nat)
      requires Valid() && app.Valid() && app.buf != buf && n == app.buf[1] && buf[1] + n <= buf[0]
      modifies buf
      ensures Valid() && Contents() == old(Contents()) + old(app.Contents())
    {
      ghost var was, more := Contents(), app.Contents();
      var len := buf[1];
      Copy(buf, 2 + len, app.buf, 2, n);
      Joined(buf, was, more);
      buf[1] := len + n;
    }

    /** mdb_midl_append_range: the ids from id + n - 1 down to id. */
    method AppendRange(id: nat, n: nat)
      requires Valid()
      modifies this, buf
      ensures Valid() && (buf == old(buf) || fresh(buf)) && Contents() == old(Contents()) + Down(id, n)
    {
      hide Down, OrUmMax;
      var len := buf[1];
      if len + n > buf[0] { Realloc(buf[0] + OrUmMax(n)); }
      ghost var was := Contents();
      buf[1] := len + n;
      FillDown(buf, 2 + len, id, n);
      Joined(buf, was, Down(id, n));
    }
  }

  lemma Joined(b: array<nat>, was: seq<nat>, more: seq<nat>)
    requires 2 + |was| + |more| <= b.Length
    requires b[2..2 + |was|] == was && b[2 + |was|..2 + |was| + |more|] == more
    ensures b[2..2 + |was| + |more|] == was + more
  {
    assert b[2..2 + |was| + |more|] == b[2..2 + |was|] + b[2 + |was|..2 + |was| + |more|];
  }

  /** memcpy between arrays. */
  method Copy(dst: array<nat>, at: nat, src: array<nat>, from: nat, n: nat)
    requires dst != src && at + n <= dst.Length && from + n <= src.Length
    modifies dst
    ensures dst[at..at + n] == src[from..from + n]
    ensures forall x :: 0 <= x < at || at + n <= x < dst.Length ==> dst[x] == old(dst[x])
  {
    var i := 0;
    while i < n
      invariant 0 <= i <= n
      invariant forall x :: at <= x < at + i ==> dst[x] == src[x - at + from]
      invariant forall x :: 0 <= x < at || at + i <= x < dst.Length ==> dst[x] == old(dst[x])
    {
      dst[at + i] := src[from + i];
      i := i + 1;
    }
  }

  /** The loop of mdb_midl_append_range, from the end of the run down. */
  method FillDown(dst: array<nat>, at: nat, id: nat, n: nat)
    requires at + n <= dst.Length
    modifies dst
    ensures dst[at..at + n] == Down(id, n)
    ensures forall x :: 0 <= x < at || at + n <= x < dst.Length ==> dst[x] == old(dst[x])
  {
    var k, next := n, id;
    while k > 0
      invariant 0 <= k <= n && next == id + (n - k)
      invariant forall x :: at + k <= x < at + n ==> dst[x] == id + (n - 1 - (x - at))
      invariant forall x :: 0 <= x < at + k || at + n <= x < dst.Length ==> dst[x] == old(dst[x])
    {
      k := k - 1;
      dst[at + k] := next;
      next := next + 1;
    }
  }

  /** A run of n consecutive ids from id up, in descending order. */
  function Down(id: nat, n: nat): (s: seq<nat>)
    ensures |s| == n && forall x :: 0 <= x < n ==> s[x] == id + (n - 1 - x)
  { seq(n, x requires 0 <= x < n => id + (n - 1 - x)) }

  // ----- Lists of (id, page) pairs -----

  /** MDB_ID2: a page number and the page. */
  datatype Pair<T(0)> = Pair(mid: nat, ptr: T)

  function Mids<T(0)>(s: seq<Pair<T>>): (r: seq<nat>)
    ensures |r| == |s| && forall i :: 0 <= i < |s| ==> r[i] == s[i].mid
  { seq(|s|, i requires 0 <= i < |s| => s[i].mid) }

  predicate Rising(s: seq<nat>) { forall i, j :: 0 <= i < j < |s| ==> s[i] < s[j] }

  /** An MDB_ID2L: a[0].mid counts the pairs after it. */
  predicate IsList2<T(0)>(a: array<Pair<T>>)
    reads a
  { a.Length > 0 && a[0].mid < a.Length }

  function Pairs<T(0)>(a: array<Pair<T>>): seq<Pair<T>>
    requires IsList2(a)
    reads a
  { a[1..1 + a[0].mid] }

  lemma PairsHold<T(0)>(a: array<Pair<T>>)
    requires IsList2(a)
    ensures |Pairs(a)| == a[0].mid && forall i :: 0 <= i < |Pairs(a)| ==> a[1 + i] == Pairs(a)[i]
  {}

  lemma PairsAre<T(0)>(a: array<Pair<T>>, s: seq<Pair<T>>)
    requires IsList2(a) && |s| == a[0].mid && (forall i :: 0 <= i < |s| ==> a[1 + i] == s[i])
    ensures Pairs(a) == s
  {}

  /** mdb_mid2l_search: the first place whose id is not below id. */
  method Search2<T(0)>(a: array<Pair<T>>, id: nat) returns (pos: nat)
    requires IsList2(a) && Rising(Mids(Pairs(a)))
    ensures 1 <= pos <= a[0].mid + 1
    ensures forall i :: 1 <= i < pos ==> a[i].mid < id
    ensures forall i :: pos <= i <= a[0].mid ==> id <= a[i].mid
    ensures forall i :: pos < i <= a[0].mid ==> id < a[i].mid
  {
    ghost var s := Mids(Pairs(a));
    assert forall i :: 1 <= i <= a[0].mid ==> a[i].mid == s[i - 1];
    var base, cursor, val, n := 0, 1, 0, a[0].mid;
    while 0 < n
      invariant 0 <= base && 0 <= n && base + n <= a[0].mid
      invariant forall i :: 1 <= i <= base ==> a[i].mid < id
      invariant forall i :: base + n < i <= a[0].mid ==> id < a[i].mid
      invariant val == 0 ==> cursor == 1 && base == 0 && n == a[0].mid
      invariant val > 0 ==> cursor == base
      invariant val < 0 ==> cursor == base + n + 1
      invariant 1 <= cursor
    {
      var pivot := n / 2;
      cursor := base + pivot + 1;
      var x := a[cursor].mid;
      assert x == s[cursor - 1];
      val := if id < x then -1 else if id > x then 1 else 0;
      if val < 0 {
        n := pivot;
      } else if val > 0 {
        base := cursor;
        n := n - (pivot + 1);
      } else {
        return cursor;
      }
    }
    if val > 0 { cursor := cursor + 1; }
    pos := cursor;
  }

  predicate HasId<T(0)>(s: seq<Pair<T>>, id: nat) { exists i :: 0 <= i < |s| && s[i].mid == id }

  /** s with a pair put in where its id belongs. */
  function Placed<T(0)>(s: seq<Pair<T>>, p: Pair<T>): seq<Pair<T>> {
    if s == [] || s[0].mid > p.mid then [p] + s else [s[0]] + Placed(s[1..], p)
  }

  lemma {:induction false} PlacedAt<T(0)>(s: seq<Pair<T>>, p: Pair<T>, x: nat)
    requires x <= |s| && (forall i :: 0 <= i < x ==> s[i].mid < p.mid) && (x < |s| ==> p.mid < s[x].mid)
    ensures Placed(s, p) == s[..x] + [p] + s[x..]
  {
    if x > 0 { PlacedAt(s[1..], p, x - 1); }
  }

  /** mdb_mid2l_insert: -1 for an id that is there, -2 for a full list. */
  method Insert2<T(0)>(a: array<Pair<T>>, p: Pair<T>) returns (rc: int)
    requires IsList2(a) && Rising(Mids(Pairs(a))) && a.Length > UM_MAX
    modifies a
    ensures IsList2(a) && Rising(Mids(Pairs(a)))
    ensures rc == if HasId(old(Pairs(a)), p.mid) then -1 else if old(a[0].mid) >= UM_MAX then -2 else 0
    ensures Pairs(a) == if rc == 0 then Placed(old(Pairs(a)), p) else old(Pairs(a))
  {
    hide Placed, HasId, Rising;
    ghost var s := Pairs(a);
    var x := Search2(a, p.mid);
    assert forall i :: 0 <= i < |s| ==> s[i] == a[i + 1];
    Slot(s, x - 1, p);
    if x <= a[0].mid && a[x].mid == p.mid {
      return -1;
    }
    if a[0].mid >= UM_MAX {
      return -2;
    }
    Shift(a, x, p);
    rc := 0;
  }

  /** The place that the search found holds the id, or is where it is to be put. */
  lemma Slot<T(0)>(s: seq<Pair<T>>, x: nat, p: Pair<T>)
    requires x <= |s| && Rising(Mids(s)) && (forall i :: 0 <= i < x ==> s[i].mid < p.mid)
    requires (forall i :: x <= i < |s| ==> p.mid <= s[i].mid) && (forall i :: x < i < |s| ==> p.mid < s[i].mid)
    ensures HasId(s, p.mid) <==> x < |s| && s[x].mid == p.mid
    ensures !HasId(s, p.mid) ==> Placed(s, p) == s[..x] + [p] + s[x..] && Rising(Mids(s[..x] + [p] + s[x..]))
  {
    if !HasId(s, p.mid) {
      PlacedAt(s, p, x);
      PlacedRising(s, p, x);
    }
  }

  /** The pairs from x on move up by one, and p takes the place. */
  method Shift<T(0)>(a: array<Pair<T>>, x: nat, p: Pair<T>)
    requires IsList2(a) && 1 <= x <= a[0].mid + 1 < a.Length
    modifies a
    ensures IsList2(a) && Pairs(a) == old(Pairs(a)[..x - 1] + [p] + Pairs(a)[x - 1..])
  {
    hide Pairs;
    ghost var s := Pairs(a);
    PairsHold(a);
    var n := a[0].mid + 1;
    assert forall y :: 1 <= y < n ==> a[y] == s[y - 1];
    a[0] := a[0].(mid := n);
    MoveUp(a, x, n);
    a[x] := p;
    PairsAre(a, s[..x - 1] + [p] + s[x - 1..]);
  }

  method MoveUp<T(0)>(a: array<Pair<T>>, x: nat, n: nat)
    requires 0 < x <= n < a.Length
    modifies a
    ensures forall y :: 0 <= y <= x || n < y < a.Length ==> a[y] == old(a[y])
    ensures forall y :: x < y <= n ==> a[y] == old(a[y - 1])
  {
    var i := n;
    while i > x
      invariant x <= i <= n
      invariant forall y :: 0 <= y <= i || n < y < a.Length ==> a[y] == old(a[y])
      invariant forall y :: i < y <= n ==> a[y] == old(a[y - 1])
    {
      a[i] := a[i - 1];
      i := i - 1;
    }
  }

  lemma PlacedRising<T(0)>(s: seq<Pair<T>>, p: Pair<T>, x: nat)
    requires x <= |s| && Rising(Mids(s)) && (forall i :: 0 <= i < x ==> s[i].mid < p.mid) && (forall i :: x <= i < |s| ==> p.mid < s[i].mid)
    ensures Rising(Mids(s[..x] + [p] + s[x..]))
  {
    assert forall i :: 0 <= i < |s| ==> Mids(s)[i] == s[i].mid;
  }

  predicate HasPtr<T(0,==)>(s: seq<Pair<T>>, ptr: T) { exists i :: 0 <= i < |s| && s[i].ptr == ptr }

  /** The removal of a dirty page in mdb_ovpage_free: later pairs move down while it is looked for from the
    * end; if it is not there the list has been rotated, which the caller treats as an error. */
  method RemovePtr<T(0,==)>(a: array<Pair<T>>, ptr: T) returns (found: bool, ghost at: nat)
    requires IsList2(a) && a[0].mid > 0
    modifies a
    ensures IsList2(a) && (found <==> HasPtr(old(Pairs(a)), ptr))
    ensures found ==> at < |old(Pairs(a))| && old(Pairs(a))[at].ptr == ptr
    ensures found ==> Pairs(a) == old(Pairs(a))[..at] + old(Pairs(a))[at + 1..]
    ensures !found ==> Pairs(a) == old(Pairs(a))[1..] + old(Pairs(a))[..1]
  {
    hide Pairs;
    ghost var s := Pairs(a);
    PairsHold(a);
    assert forall k :: 1 <= k <= |s| ==> a[k] == s[k - 1];
    var n := a[0].mid;
    var x := n;
    a[0] := a[0].(mid := n - 1);
    var ix := a[x];
    while ix.ptr != ptr && x > 1
      invariant 1 <= x <= n && ix == s[x - 1] && a[0].mid == n - 1
      invariant forall k :: 1 <= k < x ==> a[k] == s[k - 1]
      invariant forall k {:trigger a[k]} :: x <= k < n ==> a[k] == s[k]
      invariant forall k :: x <= k < n ==> s[k].ptr != ptr
      decreases x
    {
      x := x - 1;
      var iy := a[x];
      a[x] := ix;
      ix := iy;
    }
    found, at := ix.ptr == ptr, x - 1;
    if !found {
      a[0] := a[0].(mid := n);
      a[n] := ix;
      PairsAre(a, s[1..] + s[..1]);
    } else {
      PairsAre(a, s[..at] + s[at + 1..]);
    }
  }
}
