/** hostwatch.c: bytes per pair of hosts over a sliding window of time. */
module Hostwatch {
  import LinkedItems

  const ULONG := 0x1_0000_0000_0000_0000

  datatype Count = Count(ts: int, bytes: nat)
  datatype Packet = Packet(from: string, to: string, count: Count)
  datatype Row = Row(hostA: string, hostB: string, bytes: nat, packets: nat)

  // ----- Windows -----

  /** The sum of the counts as an unsigned long. */
  function Total(s: seq<Count>): nat { if s == [] then 0 else (Total(s[..|s| - 1]) + s[|s| - 1].bytes) % ULONG }

  /** The plain sum, from the front. */
  function Sum(s: seq<Count>): nat { if s == [] then 0 else s[0].bytes + Sum(s[1..]) }

  lemma {:induction false} SumMore(s: seq<Count>, c: Count)
    ensures Sum(s + [c]) == Sum(s) + c.bytes
  {
    if s == [] {
      assert (s + [c])[1..] == [];
    } else {
      assert (s + [c])[1..] == s[1..] + [c];
      SumMore(s[1..], c);
    }
  }

  /** Adding up in 64 bits gives the sum of the byte counts, modulo 2^64. */
  lemma {:induction false} TotalIsSum(s: seq<Count>)
    ensures Total(s) == Sum(s) % 0x1_0000_0000_0000_0000
  {
    if s != [] {
      var front, c := s[..|s| - 1], s[|s| - 1];
      assert s == front + [c];
      TotalIsSum(front);
      SumMore(front, c);
    }
  }

  function Since(s: seq<Count>, before: int): seq<Count> {
    if s == [] then [] else Since(s[..|s| - 1], before) + (if s[|s| - 1].ts < before then [] else [s[|s| - 1]])
  }

  predicate InOrder(s: seq<Count>) { forall i, j :: 0 <= i < j < |s| ==> s[i].ts <= s[j].ts }

  lemma SinceMore(s: seq<Count>, c: Count, before: int)
    ensures Since(s + [c], before) == Since(s, before) + (if c.ts < before then [] else [c])
  {
    assert (s + [c])[..|s|] == s;
  }

  lemma {:induction false} SinceConcat(a: seq<Count>, b: seq<Count>, before: int)
    ensures Since(a + b, before) == Since(a, before) + Since(b, before)
  {
    if b == [] {
      assert a + b == a;
    } else {
      assert (a + b)[..|a + b| - 1] == a + b[..|b| - 1];
      SinceConcat(a, b[..|b| - 1], before);
    }
  }

  lemma {:induction false} SinceAll(s: seq<Count>, before: int)
    requires forall i :: 0 <= i < |s| ==> s[i].ts >= before
    ensures Since(s, before) == s
  {
    if s != [] { SinceAll(s[..|s| - 1], before); }
  }

  lemma {:induction false} SinceNone(s: seq<Count>, before: int)
    requires forall i :: 0 <= i < |s| ==> s[i].ts < before
    ensures Since(s, before) == []
  {
    if s != [] { SinceNone(s[..|s| - 1], before); }
  }

  /** A later window of a window. */
  lemma {:induction false} SinceTwice(s: seq<Count>, t: int, before: int)
    requires t <= before
    ensures Since(Since(s, t), before) == Since(s, before)
  {
    if s != [] {
      var front, c := s[..|s| - 1], s[|s| - 1];
      SinceTwice(front, t, before);
      if c.ts >= t {
        SinceMore(Since(front, t), c, before);
      } else {
        assert Since(s, t) == Since(front, t);
      }
    }
  }

  lemma {:induction false} SinceOrder(s: seq<Count>, before: int)
    requires InOrder(s)
    ensures InOrder(Since(s, before)) && forall i :: 0 <= i < |Since(s, before)| ==> before <= Since(s, before)[i].ts && (s != [] && Since(s, before)[i].ts <= s[|s| - 1].ts)
  {
    if s != [] { SinceOrder(s[..|s| - 1], before); }
  }

  lemma RestRecent(s: seq<Count>, k: nat, before: int)
    requires InOrder(s) && k <= |s| && (k < |s| ==> s[k].ts >= before)
    ensures forall i :: 0 <= i < |s[k..]| ==> s[k..][i].ts >= before
  {
    forall i | 0 <= i < |s[k..]| ensures s[k..][i].ts >= before { assert s[k].ts <= s[k + i].ts; }
  }

  /** In a list in order the counts to be dropped come first: stopping at the first fresh one drops all. */
  lemma DropIsSince(s: seq<Count>, k: nat, before: int)
    requires InOrder(s) && k <= |s| && (forall i :: 0 <= i < k ==> s[i].ts < before) && (k < |s| ==> s[k].ts >= before)
    ensures s[k..] == Since(s, before)
  {
    hide Since;
    var old_, recent := s[..k], s[k..];
    RestRecent(s, k, before);
    assert s == old_ + recent;
    SinceConcat(old_, recent, before);
    SinceNone(old_, before);
    SinceAll(recent, before);
    assert [] + recent == recent;
  }

  /** Counts in order of time up to `clock`, of which none of `all` is missing that is recent enough; and
    * their sum. */
  predicate Window(s: seq<Count>, all: seq<Count>, sum: nat, clock: int, span: int) {
    && InOrder(s) && (s != [] ==> s[|s| - 1].ts <= clock)
    && Since(s, clock - span) == Since(all, clock - span) && sum == Total(s)
  }

  lemma WindowLater(s: seq<Count>, all: seq<Count>, sum: nat, clock: int, span: int, now: int)
    requires Window(s, all, sum, clock, span) && now >= clock
    ensures Window(s, all, sum, now, span)
  {
    hide Since, Total;
    SinceTwice(s, clock - span, now - span);
    SinceTwice(all, clock - span, now - span);
  }

  /** Dropping the counts that have become too old leaves exactly the window. */
  lemma WindowPruned(s: seq<Count>, all: seq<Count>, sum: nat, clock: int, span: int, now: int)
    requires Window(s, all, sum, clock, span) && now >= clock
    ensures Since(s, now - span) == Since(all, now - span)
    ensures Window(Since(s, now - span), all, Total(Since(s, now - span)), now, span)
  {
    hide Since, Total;
    WindowLater(s, all, sum, clock, span, now);
    SinceTwice(s, now - span, now - span);
    SinceOrder(s, now - span);
  }

  lemma WindowMore(s: seq<Count>, all: seq<Count>, sum: nat, now: int, span: int, c: Count)
    requires Window(s, all, sum, now, span) && c.ts == now
    ensures Window(s + [c], all + [c], Total(s + [c]), now, span)
  {
    hide Since;
    SinceMore(s, c, now - span);
    SinceMore(all, c, now - span);
    OrderMore(s, c);
  }

  lemma OrderMore(s: seq<Count>, c: Count)
    requires InOrder(s) && (s != [] ==> s[|s| - 1].ts <= c.ts)
    ensures InOrder(s + [c]) && (s + [c])[|s|] == c
  {
  }

  // ----- Hosts -----

  class HostData {
    const hostA: string
    const hostB: string
    var byteCount: seq<Count>
    var byteSum: nat

    constructor (hostA: string, hostB: string)
      ensures this.hostA == hostA && this.hostB == hostB && byteCount == [] && byteSum == 0
    { this.hostA, this.hostB, byteCount, byteSum := hostA, hostB, [], 0; }

    /** add_bytes */
    method AddBytes(b: nat, ts: int)
      modifies this`byteCount
      ensures byteCount == old(byteCount) + [Count(ts, b)]
    { byteCount := byteCount + [Count(ts, b)]; }

    /** update_bytes_sum, in unsigned long arithmetic. */
    method UpdateBytesSum()
      modifies this`byteSum
      ensures byteSum == Total(byteCount)
    {
      byteSum := 0;
      var curr := 0;
      while curr < |byteCount|
        invariant 0 <= curr <= |byteCount| && byteSum == Total(byteCount[..curr])
      {
        assert byteCount[..curr + 1][..curr] == byteCount[..curr];
        byteSum := (byteSum + byteCount[curr].bytes) % ULONG;
        curr := curr + 1;
      }
      assert byteCount[..curr] == byteCount;
    }

    /** remove_byte_count_before: it returns at the first count that is recent enough. */
    method RemoveBefore(before: int) returns (removed: nat)
      requires InOrder(byteCount)
      modifies this`byteCount
      ensures byteCount == Since(old(byteCount), before) && (removed == 0 ==> byteCount == old(byteCount))
    {
      removed := 0;
      ghost var s := byteCount;
      while byteCount != []
        invariant removed <= |s| && byteCount == s[removed..]
        invariant forall i :: 0 <= i < removed ==> s[i].ts < before
        decreases |byteCount|
      {
        if byteCount[0].ts < before {
          byteCount := byteCount[1..];
          removed := removed + 1;
        } else {
          DropIsSince(s, removed, before);
          return;
        }
      }
      DropIsSince(s, removed, before);
    }

    /** What main does with the item of a packet. */
    method CountBytes(bytes: nat, now: int, before: int)
      requires InOrder(byteCount)
      modifies this
      ensures byteCount == Since(old(byteCount), before) + [Count(now, bytes)] && byteSum == Total(byteCount)
    {
      var removed := RemoveBefore(before);
      AddBytes(bytes, now);
      UpdateBytesSum();
    }
  }

  // ----- Pairs of hosts -----

  /** Packets from `from` to `to` are counted in the item a, b. */
  predicate CountedIn(a: string, b: string, from: string, to: string, ignoreDirection: bool) {
    (a == from && b == to) || (ignoreDirection && a == to && b == from)
  }

  /** The packets of a history that belong to a pair. */
  function Of(h: seq<Packet>, a: string, b: string, x: bool): seq<Count> {
    if h == [] then [] else
      var p := h[|h| - 1];
      Of(h[..|h| - 1], a, b, x) + (if CountedIn(a, b, p.from, p.to, x) then [p.count] else [])
  }

  /** Which packets belong to the item a, b: those from a to b and, if the direction is ignored, those from b to
    * a; in the order in which they came. */
  lemma OfParts(g: seq<Packet>, h: seq<Packet>, p: Packet, a: string, b: string, x: bool)
    ensures Of(g + [p] + h, a, b, x) == Of(g, a, b, x) + Of([p], a, b, x) + Of(h, a, b, x)
    ensures Of([p], a, b, x) == if (p.from == a && p.to == b) || (x && p.from == b && p.to == a) then [p.count] else []
  {
    OfConcat(g + [p], h, a, b, x);
    OfConcat(g, [p], a, b, x);
    OfMore([], p, a, b, x);
    assert [] + [p] == [p];
  }

  lemma {:induction false} OfConcat(g: seq<Packet>, h: seq<Packet>, a: string, b: string, x: bool)
    ensures Of(g + h, a, b, x) == Of(g, a, b, x) + Of(h, a, b, x)
    decreases |h|
  {
    if h == [] {
      assert g + h == g;
    } else {
      hide CountedIn, Of;
      var front, p := h[..|h| - 1], h[|h| - 1];
      assert h == front + [p] && g + h == (g + front) + [p];
      OfConcat(g, front, a, b, x);
      OfMore(g + front, p, a, b, x);
      OfMore(front, p, a, b, x);
    }
  }

  lemma OfMore(h: seq<Packet>, p: Packet, a: string, b: string, x: bool)
    ensures Of(h + [p], a, b, x) == Of(h, a, b, x) + (if CountedIn(a, b, p.from, p.to, x) then [p.count] else [])
  {
    assert (h + [p])[..|h|] == h;
  }

  lemma {:induction false} OfNone(h: seq<Packet>, a: string, b: string, x: bool)
    requires forall i :: 0 <= i < |h| ==> !CountedIn(a, b, h[i].from, h[i].to, x)
    ensures Of(h, a, b, x) == []
  {
    if h != [] { OfNone(h[..|h| - 1], a, b, x); }
  }

  lemma Symmetric(a: string, b: string, c: string, d: string, x: bool)
    ensures CountedIn(a, b, c, d, x) <==> CountedIn(c, d, a, b, x)
  {
  }

  lemma SamePair(a: string, b: string, c: string, d: string, from: string, to: string, x: bool)
    ensures CountedIn(a, b, from, to, x) && CountedIn(c, d, from, to, x) ==> CountedIn(a, b, c, d, x)
    ensures CountedIn(a, b, c, d, x) && CountedIn(c, d, from, to, x) ==> CountedIn(a, b, from, to, x)
  {
  }

  /** The pairs of the items. */
  function Pairs(data: seq<HostData>): (ps: seq<(string, string)>)
    ensures |ps| == |data| && forall i :: 0 <= i < |data| ==> ps[i] == (data[i].hostA, data[i].hostB)
  { seq(|data|, i requires 0 <= i < |data| => (data[i].hostA, data[i].hostB)) }

  predicate PairOf(p: (string, string), from: string, to: string, x: bool) { CountedIn(p.0, p.1, from, to, x) }

  /** There is at most one item for a pair. */
  predicate Unique(ps: seq<(string, string)>, x: bool) {
    forall i, j :: 0 <= i < |ps| && 0 <= j < |ps| && PairOf(ps[i], ps[j].0, ps[j].1, x) ==> i == j
  }

  predicate Found(ps: seq<(string, string)>, from: string, to: string, x: bool) {
    exists k :: 0 <= k < |ps| && PairOf(ps[k], from, to, x)
  }

  /** Every packet has its item. */
  predicate Covered(ps: seq<(string, string)>, h: seq<Packet>, x: bool) {
    forall i :: 0 <= i < |h| ==> Found(ps, h[i].from, h[i].to, x)
  }

  lemma FoundMore(ps: seq<(string, string)>, p: (string, string), from: string, to: string, x: bool)
    ensures Found(ps + [p], from, to, x) <==> Found(ps, from, to, x) || PairOf(p, from, to, x)
  {
    var all := ps + [p];
    if Found(ps, from, to, x) {
      var k :| 0 <= k < |ps| && PairOf(ps[k], from, to, x);
      assert all[k] == ps[k];
    }
    if PairOf(p, from, to, x) { assert all[|ps|] == p; }
  }

  lemma CoveredMore(ps: seq<(string, string)>, p: (string, string), h: seq<Packet>, x: bool)
    requires Covered(ps, h, x)
    ensures Covered(ps + [p], h, x)
  {
    forall i | 0 <= i < |h| ensures Found(ps + [p], h[i].from, h[i].to, x) { FoundMore(ps, p, h[i].from, h[i].to, x); }
  }

  lemma UniqueMore(ps: seq<(string, string)>, p: (string, string), x: bool)
    requires Unique(ps, x) && !Found(ps, p.0, p.1, x)
    ensures Unique(ps + [p], x)
  {
    var all := ps + [p];
    forall i, j | 0 <= i < |all| && 0 <= j < |all| && PairOf(all[i], all[j].0, all[j].1, x) ensures i == j {
      Symmetric(all[i].0, all[i].1, all[j].0, all[j].1, x);
      assert i < |ps| ==> all[i] == ps[i];
      assert j < |ps| ==> all[j] == ps[j];
    }
  }

  lemma CoveredPacket(ps: seq<(string, string)>, h: seq<Packet>, p: Packet, x: bool)
    requires Covered(ps, h, x) && Found(ps, p.from, p.to, x)
    ensures Covered(ps, h + [p], x)
  {
    hide Found;
  }

  lemma FoundAt(ps: seq<(string, string)>, k: nat, from: string, to: string, x: bool)
    requires k < |ps| && PairOf(ps[k], from, to, x)
    ensures Found(ps, from, to, x)
  {
  }

  lemma OnlyOne(ps: seq<(string, string)>, x: bool, i: nat, j: nat, from: string, to: string)
    requires Unique(ps, x) && i < |ps| && j < |ps| && PairOf(ps[i], from, to, x) && PairOf(ps[j], from, to, x)
    ensures i == j
  {
    SamePair(ps[i].0, ps[i].1, ps[j].0, ps[j].1, from, to, x);
  }

  /** A pair that no item is for has no packets yet. */
  lemma NoPackets(ps: seq<(string, string)>, p: (string, string), h: seq<Packet>, x: bool)
    requires Covered(ps, h, x) && !Found(ps, p.0, p.1, x)
    ensures Of(h, p.0, p.1, x) == []
  {
    forall i | 0 <= i < |h| ensures !CountedIn(p.0, p.1, h[i].from, h[i].to, x) {
      assert Found(ps, h[i].from, h[i].to, x);
      var k :| 0 <= k < |ps| && PairOf(ps[k], h[i].from, h[i].to, x);
      SamePair(ps[k].0, ps[k].1, p.0, p.1, h[i].from, h[i].to, x);
    }
    OfNone(h, p.0, p.1, x);
  }

  // ----- Sorting -----

  /** The place of an item in the list, and its byte_sum. */
  type Entry = (nat, nat)
  type Item = LinkedItems.Item<Entry>

  /** compare: positive if b has more bytes. */
  function Compare(a: Entry, b: Entry): int { if b.1 > a.1 then 1 else 0 }

  lemma CompareOk()
    ensures LinkedItems.StrictWeakOrder<Entry>(Compare)
  {
  }

  predicate SameItems(s: seq<HostData>, t: seq<HostData>) {
    |s| == |t| && (forall i :: 0 <= i < |s| ==> s[i] in t) && (forall i :: 0 <= i < |t| ==> t[i] in s)
  }

  predicate InOrderIn(s: seq<HostData>, x: HostData, y: HostData) { exists i, j :: 0 <= i < j < |s| && s[i] == x && s[j] == y }

  /** The items of the list, with their sums, as a chain. */
  ghost predicate ChainOf(s: seq<Item>, data: seq<HostData>) reads s, data {
    |s| == |data| && LinkedItems.Chain(s) && forall i :: 0 <= i < |s| ==> s[i].data == (i, data[i].byteSum)
  }

  method AppendEntry(last: LinkedItems.Item?<Entry>, e: Entry, ghost s: seq<Item>) returns (item: Item)
    requires LinkedItems.Chain(s) && last == (if s == [] then null else s[|s| - 1])
    modifies s
    ensures fresh(item) && item.data == e && LinkedItems.Chain(s + [item])
  {
    hide LinkedItems.Chain;
    item := new LinkedItems.Item<Entry>(e);
    LinkedItems.Append(last, item, s, if s == [] then 0 else |s| - 1);
    if last == null {
      assert s + [item] == [item];
    } else {
      assert LinkedItems.Inserted(s, |s|, item) == s + [item];
    }
  }

  method MakeChain(data: seq<HostData>) returns (head: LinkedItems.Item?<Entry>, ghost s: seq<Item>)
    ensures ChainOf(s, data) && head == (if s == [] then null else s[0]) && fresh(s)
  {
    head, s := null, [];
    var last: LinkedItems.Item?<Entry> := null;
    var i: nat := 0;
    while i < |data|
      invariant 0 <= i <= |data| && ChainOf(s, data[..i]) && fresh(s)
      invariant head == (if s == [] then null else s[0]) && last == (if s == [] then null else s[|s| - 1])
    {
      var item := AppendEntry(last, (i, data[i].byteSum), s);
      if last == null { head := item; }
      last := item;
      s := s + [item];
      i := i + 1;
    }
    assert data[..i] == data;
  }

  /** Walk along the chain. */
  method Collect(head: LinkedItems.Item?<Entry>, ghost s: seq<Item>, data: seq<HostData>) returns (d: seq<HostData>)
    requires LinkedItems.Chain(s) && head == (if s == [] then null else s[0]) && forall i :: 0 <= i < |s| ==> s[i].data.0 < |data|
    ensures |d| == |s| && forall i :: 0 <= i < |s| ==> d[i] == data[s[i].data.0]
  {
    d := [];
    var curr := head;
    ghost var i := 0;
    while curr != null
      invariant 0 <= i <= |s| && curr == (if i < |s| then s[i] else null)
      invariant |d| == i && forall k :: 0 <= k < i ==> d[k] == data[s[k].data.0]
      decreases |s| - i
    {
      assert LinkedItems.Linked(s, i);
      d := d + [data[curr.data.0]];
      curr := curr.next;
      i := i + 1;
    }
  }

  /** What a sorted chain says of the items. */
  lemma SortMeans(was: seq<HostData>, s: seq<Item>, t: seq<Item>, now: seq<HostData>)
    requires |s| == |was| && (forall i :: 0 <= i < |s| ==> s[i].data == (i, was[i].byteSum)) && LinkedItems.Distinct(s)
    requires (forall i, j :: 0 <= i < j < |was| ==> was[i] != was[j]) && LinkedItems.Distinct(t)
    requires LinkedItems.Reordered(s, t, Compare) && LinkedItems.Sorted(t, Compare)
    requires |now| == |t| && forall i :: 0 <= i < |t| ==> t[i].data.0 < |was| && now[i] == was[t[i].data.0]
    ensures SameItems(was, now) && (forall i, j :: 0 <= i < j < |now| ==> now[i] != now[j])
    ensures forall i, j :: 0 <= i < j < |now| ==> now[i].byteSum >= now[j].byteSum
    ensures forall i, j :: 0 <= i < j < |was| && was[i].byteSum >= was[j].byteSum ==> InOrderIn(now, was[i], was[j])
  {
    SameMembers(s, t);
    forall d | d in was ensures d in now {
      var i :| 0 <= i < |was| && was[i] == d;
      assert s[i] in t;
      var j :| 0 <= j < |t| && t[j] == s[i];
      assert now[j] == d;
    }
    forall j | 0 <= j < |t| ensures now[j] in was && t[j].data.1 == now[j].byteSum {
      assert t[j] in s;
      var i :| 0 <= i < |s| && s[i] == t[j];
      assert now[j] == was[i];
    }
    forall i, j | 0 <= i < j < |now| ensures now[i] != now[j] {
      assert t[i] in s && t[j] in s;
      var k :| 0 <= k < |s| && s[k] == t[i];
      var l :| 0 <= l < |s| && s[l] == t[j];
      assert k != l;
    }
    forall i, j | 0 <= i < j < |now| ensures now[i].byteSum >= now[j].byteSum {
      assert !LinkedItems.Greater(Compare, t[i], t[j]);
    }
    forall i, j | 0 <= i < j < |was| && was[i].byteSum >= was[j].byteSum ensures InOrderIn(now, was[i], was[j]) {
      assert !LinkedItems.Greater(Compare, s[i], s[j]);
      assert LinkedItems.Before(t, s[i], s[j]);
      var k, l :| 0 <= k < l < |t| && t[k] == s[i] && t[l] == s[j];
      assert now[k] == was[i] && now[l] == was[j];
    }
  }

  method SortedItems(data: seq<HostData>) returns (sorted: seq<HostData>)
    requires forall i, j :: 0 <= i < j < |data| ==> data[i] != data[j]
    ensures SameItems(data, sorted) && (forall i, j :: 0 <= i < j < |sorted| ==> sorted[i] != sorted[j])
    ensures forall i, j :: 0 <= i < j < |sorted| ==> sorted[i].byteSum >= sorted[j].byteSum
    ensures forall i, j :: 0 <= i < j < |data| && data[i].byteSum >= data[j].byteSum ==> InOrderIn(sorted, data[i], data[j])
  {
    hide LinkedItems.Reordered, LinkedItems.Sorted, SameItems, InOrderIn, LinkedItems.StrictWeakOrder;
    var head, s := MakeChain(data);
    CompareOk();
    LinkedItems.ChainDistinct(s);
    var first, t := LinkedItems.Sort(head, Compare, s);
    LinkedItems.ChainDistinct(t);
    PlacesKept(data, s, t);
    sorted := Collect(first, t, data);
    SortMeans(data, s, t, sorted);
  }

  lemma SameLength(s: seq<HostData>, t: seq<HostData>)
    requires SameItems(s, t)
    ensures |s| == |t|
  {
  }

  lemma PlaceOf(s: seq<HostData>, t: seq<HostData>, i: nat) returns (k: nat)
    requires SameItems(s, t) && i < |t|
    ensures k < |s| && s[k] == t[i]
  {
    assert t[i] in s;
    k :| 0 <= k < |s| && s[k] == t[i];
  }

  lemma PlacesKept(was: seq<HostData>, s: seq<Item>, t: seq<Item>)
    requires |s| == |was| && (forall i :: 0 <= i < |s| ==> s[i].data == (i, was[i].byteSum)) && LinkedItems.Reordered(s, t, Compare)
    ensures forall i :: 0 <= i < |t| ==> t[i].data.0 < |was|
  {
    SameMembers(s, t);
    forall j | 0 <= j < |t| ensures t[j].data.0 < |was| {
      assert t[j] in s;
      var i :| 0 <= i < |s| && s[i] == t[j];
    }
  }

  lemma SameMembers(s: seq<Item>, t: seq<Item>)
    requires multiset(s) == multiset(t)
    ensures |s| == |t| && (forall x :: x in s ==> x in t) && (forall x :: x in t ==> x in s)
  {
    assert |multiset(s)| == |s| && |multiset(t)| == |t|;
    forall x | x in s ensures x in t { assert x in multiset(s); }
    forall x | x in t ensures x in s { assert x in multiset(t); }
  }

  /** The order of the items does not matter for what pairs they are for. */
  lemma Reshuffled(s: seq<HostData>, t: seq<HostData>, h: seq<Packet>, x: bool)
    requires SameItems(s, t) && (forall i, j :: 0 <= i < j < |t| ==> t[i] != t[j]) && (forall i, j :: 0 <= i < j < |s| ==> s[i] != s[j])
    requires Unique(Pairs(s), x) && Covered(Pairs(s), h, x)
    ensures Unique(Pairs(t), x) && Covered(Pairs(t), h, x)
  {
    var ps, pt := Pairs(s), Pairs(t);
    forall i, j | 0 <= i < |pt| && 0 <= j < |pt| && PairOf(pt[i], pt[j].0, pt[j].1, x) ensures i == j {
      assert t[i] in s && t[j] in s;
      var k :| 0 <= k < |s| && s[k] == t[i];
      var l :| 0 <= l < |s| && s[l] == t[j];
      assert PairOf(ps[k], ps[l].0, ps[l].1, x);
    }
    forall i | 0 <= i < |h| ensures Found(pt, h[i].from, h[i].to, x) {
      assert Found(ps, h[i].from, h[i].to, x);
      var k :| 0 <= k < |ps| && PairOf(ps[k], h[i].from, h[i].to, x);
      assert s[k] in t;
      var l :| 0 <= l < |t| && t[l] == s[k];
      assert PairOf(pt[l], h[i].from, h[i].to, x);
    }
  }

  class Watch {
    const ignoreDirection: bool
    const timespan: int
    const maxItems: nat
    var data: seq<HostData>
    ghost var history: seq<Packet>  // all packets so far
    ghost var clock: int  // the time last seen

    /** An item holds counts of its pair in order of time, none missing that is recent enough. */
    ghost predicate ItemOk(d: HostData)
      reads this, d
    { Window(d.byteCount, Of(history, d.hostA, d.hostB, ignoreDirection), d.byteSum, clock, timespan) }

    ghost predicate Valid()
      reads this, data
    {
      && (forall i, j :: 0 <= i < j < |data| ==> data[i] != data[j])
      && Unique(Pairs(data), ignoreDirection) && Covered(Pairs(data), history, ignoreDirection)
      && forall i :: 0 <= i < |data| ==> ItemOk(data[i])
    }

    constructor (ignoreDirection: bool, timespan: int, maxItems: nat, clock: int)
      ensures Valid() && data == [] && history == [] && this.clock == clock
      ensures this.ignoreDirection == ignoreDirection && this.timespan == timespan && this.maxItems == maxItems
    {
      this.ignoreDirection, this.timespan, this.maxItems := ignoreDirection, timespan, maxItems;
      data, history, this.clock := [], [], clock;
    }

    /** find_item */
    method FindItem(a: string, b: string) returns (item: HostData?)
      ensures item == null ==> forall i :: 0 <= i < |data| ==> !(data[i].hostA == a && data[i].hostB == b)
      ensures item != null ==> item in data && item.hostA == a && item.hostB == b
    {
      var i := 0;
      while i < |data|
        invariant 0 <= i <= |data| && forall k :: 0 <= k < i ==> !(data[k].hostA == a && data[k].hostB == b)
      {
        if data[i].hostA == a && data[i].hostB == b { return data[i]; }
        i := i + 1;
      }
      item := null;
    }

    /** create_item: a new item comes last. */
    method CreateItem(a: string, b: string) returns (item: HostData)
      requires Valid() && !Found(Pairs(data), a, b, ignoreDirection)
      modifies this`data
      ensures Valid() && fresh(item) && item.hostA == a && item.hostB == b && item.byteCount == [] && data == old(data) + [item]
    {
      hide Found, Unique, Covered, Of, InOrder, Since;
      item := new HostData(a, b);
      ghost var was := data;
      UniqueMore(Pairs(was), (a, b), ignoreDirection);
      CoveredMore(Pairs(was), (a, b), history, ignoreDirection);
      NoPackets(Pairs(was), (a, b), history, ignoreDirection);
      data := data + [item];
      assert Pairs(data) == Pairs(was) + [(a, b)];
      NewItemOk(item);
      assert forall i :: 0 <= i < |was| ==> data[i] == was[i] && was[i] in was;
      forall i | 0 <= i < |data| ensures ItemOk(data[i]) {
        if i < |was| { assert old(ItemOk(was[i])); }
      }
    }

    lemma NewItemOk(d: HostData)
      requires d.byteCount == [] && d.byteSum == 0 && Of(history, d.hostA, d.hostB, ignoreDirection) == []
      ensures ItemOk(d)
    {
    }

    /** The item for a packet, made if there is none. */
    method ItemFor(from: string, to: string) returns (item: HostData)
      requires Valid()
      modifies this`data
      ensures Valid() && item in data && CountedIn(item.hostA, item.hostB, from, to, ignoreDirection)
      ensures data == old(data) || (fresh(item) && item.byteCount == [] && data == old(data) + [item])
    {
      var found := FindItem(from, to);
      if found == null && ignoreDirection { found := FindItem(to, from); }
      if found != null {
        item := found;
      } else {
        item := CreateItem(from, to);
      }
    }

    lemma InWindow(d: HostData)
      requires ItemOk(d)
      ensures InOrder(d.byteCount)
    {
    }

    /** The packet goes into the history; the windows of the other items only move on. */
    ghost method Recorded(k: nat, p: Packet, now: int)
      requires (forall i, j :: 0 <= i < j < |data| ==> data[i] != data[j]) && k < |data| && now >= clock
      requires Unique(Pairs(data), ignoreDirection) && Covered(Pairs(data), history, ignoreDirection)
      requires forall i :: 0 <= i < |data| && i != k ==> ItemOk(data[i])
      requires CountedIn(data[k].hostA, data[k].hostB, p.from, p.to, ignoreDirection)
      requires Window(data[k].byteCount, Of(history, data[k].hostA, data[k].hostB, ignoreDirection) + [p.count], data[k].byteSum, now, timespan)
      modifies this`history, this`clock
      ensures Valid() && history == old(history) + [p] && clock == now
    {
      hide Found, Unique, Covered, Of, Window;
      ghost var ps, h, t := Pairs(data), history, clock;
      FoundAt(ps, k, p.from, p.to, ignoreDirection);
      CoveredPacket(ps, h, p, ignoreDirection);
      OfMore(h, p, data[k].hostA, data[k].hostB, ignoreDirection);
      forall i | 0 <= i < |data| && i != k
        ensures Window(data[i].byteCount, Of(h + [p], data[i].hostA, data[i].hostB, ignoreDirection), data[i].byteSum, now, timespan)
      {
        if PairOf(ps[i], p.from, p.to, ignoreDirection) { OnlyOne(ps, ignoreDirection, i, k, p.from, p.to); }
        OfMore(h, p, data[i].hostA, data[i].hostB, ignoreDirection);
        assert Of(h + [p], data[i].hostA, data[i].hostB, ignoreDirection) == Of(h, data[i].hostA, data[i].hostB, ignoreDirection);
        WindowLater(data[i].byteCount, Of(h, data[i].hostA, data[i].hostB, ignoreDirection), data[i].byteSum, t, timespan, now);
      }
      history, clock := h + [p], now;
      assert forall i :: 0 <= i < |data| ==> ItemOk(data[i]);
    }

    /** A packet: the window of its item moves on, and its bytes are added. */
    method PacketSeen(from: string, to: string, bytes: nat, now: int)
      requires Valid() && now >= clock
      modifies this, data
      ensures Valid() && clock == now && history == old(history) + [Packet(from, to, Count(now, bytes))]
      ensures old(data) <= data && |data| <= |old(data)| + 1
    {
      hide Found, Unique, Covered, Of, Window, InOrder, Since, Total;
      var item := ItemFor(from, to);
      ghost var p := Packet(from, to, Count(now, bytes));
      ghost var k :| 0 <= k < |data| && data[k] == item;
      assert ItemOk(data[k]);
      InWindow(item);
      ghost var was, all := item.byteCount, Of(history, item.hostA, item.hostB, ignoreDirection);
      WindowPruned(was, all, item.byteSum, clock, timespan, now);
      WindowMore(Since(was, now - timespan), all, Total(Since(was, now - timespan)), now, timespan, p.count);
      item.CountBytes(bytes, now, now - timespan);
      Recorded(k, p, now);
    }

    /** cleanup_host_data on one item. */
    method CleanItem(d: HostData, now: int)
      requires ItemOk(d) && now >= clock
      modifies d
      ensures d.byteCount == Since(Of(history, d.hostA, d.hostB, ignoreDirection), now - timespan)
      ensures Window(d.byteCount, Of(history, d.hostA, d.hostB, ignoreDirection), d.byteSum, now, timespan)
    {
      hide Of, Since, Window;
      InWindow(d);
      ghost var all := Of(history, d.hostA, d.hostB, ignoreDirection);
      WindowPruned(d.byteCount, all, d.byteSum, clock, timespan, now);
      SumIs(d.byteCount, all, d.byteSum, clock, timespan);
      var removed := d.RemoveBefore(now - timespan);
      if removed > 0 { d.UpdateBytesSum(); }
    }

    /** cleanup_host_data: every item holds exactly the packets of its window. */
    method Cleanup(now: int)
      requires Valid() && now >= clock
      modifies this`clock, data
      ensures Valid() && clock == now && Exact()
    {
      hide Found, Unique, Covered, Of, Window, Since;
      var i := 0;
      while i < |data|
        invariant 0 <= i <= |data| && clock == old(clock)
        invariant forall k :: 0 <= k < i ==> data[k].byteCount == Since(Of(history, data[k].hostA, data[k].hostB, ignoreDirection), now - timespan)
        invariant forall k :: 0 <= k < i ==>
          Window(data[k].byteCount, Of(history, data[k].hostA, data[k].hostB, ignoreDirection), data[k].byteSum, now, timespan)
        invariant forall k :: i <= k < |data| ==> ItemOk(data[k])
      {
        CleanItem(data[i], now);
        i := i + 1;
      }
      clock := now;
      assert forall k :: 0 <= k < |data| ==> ItemOk(data[k]);
    }

    /** All items hold what was seen of their pair within the time span, and no more. */
    ghost predicate Exact()
      reads this, data
    {
      forall i :: 0 <= i < |data| ==>
        data[i].byteCount == Since(Of(history, data[i].hostA, data[i].hostB, ignoreDirection), clock - timespan)
    }

    /** linked_item_sort with compare. */
    method SortData()
      requires Valid()
      modifies this`data
      ensures Valid() && SameItems(old(data), data) && (old(Exact()) ==> Exact())
      ensures forall i, j :: 0 <= i < j < |data| ==> data[i].byteSum >= data[j].byteSum
      ensures forall i, j :: 0 <= i < j < |old(data)| && old(data)[i].byteSum >= old(data)[j].byteSum ==>
        InOrderIn(data, old(data)[i], old(data)[j])
    {
      hide Window, Of, Found, Unique, Covered, SameItems, InOrderIn, Since;
      var sorted := SortedItems(data);
      Reshuffled(data, sorted, history, ignoreDirection);
      ghost var was := data;
      SameLength(was, sorted);
      data := sorted;
      forall i | 0 <= i < |data|
        ensures ItemOk(data[i])
        ensures old(Exact()) ==> data[i].byteCount == Since(Of(history, data[i].hostA, data[i].hostB, ignoreDirection), clock - timespan)
      {
        var k := PlaceOf(was, data, i);
        assert old(ItemOk(was[k]));
      }
    }

    /** What the table says about the pair of an item. */
    function RowOf(d: HostData): Row
      reads d
    { Row(d.hostA, d.hostB, d.byteSum, |d.byteCount|) }

    /** create_out: the table shows the items with the most bytes within the time span, most first. */
    method CreateOut(now: int) returns (rows: seq<Row>)
      requires Valid() && now >= clock
      modifies this`clock, this`data, data
      ensures Valid() && clock == now && SameItems(old(data), data) && Exact()
      ensures |rows| == if maxItems < |data| then maxItems else |data|
      ensures forall i :: 0 <= i < |rows| ==> rows[i].hostA == data[i].hostA && rows[i].hostB == data[i].hostB
      ensures forall i :: 0 <= i < |rows| ==> rows[i].bytes == data[i].byteSum && rows[i].packets == |data[i].byteCount|
      ensures forall i, j :: 0 <= i < |rows| && i < j < |data| ==> rows[i].bytes >= data[j].byteSum
      ensures forall i :: 0 <= i < |data| ==>
        data[i].byteSum == Total(Since(Of(history, data[i].hostA, data[i].hostB, ignoreDirection), now - timespan))
    {
      hide Found, Unique, Covered, Of, Since, Total, InOrderIn, InOrder, Window, Pairs;
      Cleanup(now);
      SortData();
      rows := TopRows();
      forall i | 0 <= i < |data|
        ensures data[i].byteSum == Total(Since(Of(history, data[i].hostA, data[i].hostB, ignoreDirection), now - timespan))
      {
        ItemSum(data[i]);
      }
    }

    /** The rows of the first items. */
    method TopRows() returns (rows: seq<Row>)
      ensures |rows| == (if maxItems < |data| then maxItems else |data|) && forall i :: 0 <= i < |rows| ==> rows[i] == RowOf(data[i])
    {
      rows := [];
      var curr := 0;
      while curr < |data| && curr < maxItems
        invariant 0 <= curr <= |data| && curr <= maxItems && |rows| == curr
        invariant forall i :: 0 <= i < curr ==> rows[i] == RowOf(data[i])
      {
        rows := rows + [RowOf(data[curr])];
        curr := curr + 1;
      }
    }

    lemma ItemSum(d: HostData)
      requires ItemOk(d)
      ensures d.byteSum == Total(d.byteCount)
    {
    }
  }

  lemma SumIs(s: seq<Count>, all: seq<Count>, sum: nat, clock: int, span: int)
    requires Window(s, all, sum, clock, span)
    ensures sum == Total(s)
  {
  }
}
