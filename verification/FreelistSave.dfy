/** mdb_freelist_save: the free pages go back into the free database, whose own pages come from the
  * list being saved.
  *
  * Every cursor operation on the free database may change the lists (pages touched, split, allocated,
  * freed).  What the operations change is a parameter, `script`, over which everything is proved. */
module FreelistSave {
  import opened Midl
  import Mvcc

  /** A freeDB record: room for pages not yet filled in, or a list. */
  datatype Rec = Reserved(room: nat) | List(pages: seq<nat>)

  /** The lists that a free database operation may change: mt_free_pgs, me_pghead, me_pglast, loose pages. */
  datatype World = World(free: seq<nat>, head: seq<nat>, have: bool, pglast: nat, loose: seq<nat>)

  function Pages(r: Rec): seq<nat> { if r.List? then r.pages else [] }
  function Room(r: Rec): nat { if r.List? then |r.pages| else r.room }

  // ----- Descending order -----

  function Insert(s: seq<nat>, x: nat): (t: seq<nat>)
    ensures |t| == |s| + 1
  { if s == [] || s[0] <= x then [x] + s else [s[0]] + Insert(s[1..], x) }

  /** What mdb_midl_sort leaves. */
  function Sorted(s: seq<nat>): (t: seq<nat>)
    ensures |t| == |s|
  { if s == [] then [] else Insert(Sorted(s[1..]), s[0]) }

  lemma {:induction false} InsertMembers(s: seq<nat>, x: nat)
    ensures multiset(Insert(s, x)) == multiset(s) + multiset{x}
  {
    if s != [] && s[0] > x {
      InsertMembers(s[1..], x);
      assert s == [s[0]] + s[1..];
    }
  }

  lemma InFront(x: nat, s: seq<nat>)
    requires Descending(s) && (s != [] ==> s[0] <= x)
    ensures Descending([x] + s)
  {
  }

  lemma {:induction false} InsertOrder(s: seq<nat>, x: nat, top: nat)
    requires Descending(s) && x <= top && (s != [] ==> s[0] <= top)
    ensures Descending(Insert(s, x)) && Insert(s, x)[0] <= top
  {
    if s != [] && s[0] > x {
      assert s == [s[0]] + s[1..] && Descending(s[1..]);
      InsertOrder(s[1..], x, s[0]);
      InFront(s[0], Insert(s[1..], x));
    } else {
      InFront(x, s);
    }
  }

  lemma {:induction false} SortedOk(s: seq<nat>)
    ensures Descending(Sorted(s)) && multiset(Sorted(s)) == multiset(s)
  {
    if s != [] {
      var rest := Sorted(s[1..]);
      SortedOk(s[1..]);
      InsertMembers(rest, s[0]);
      InsertOrder(rest, s[0], if rest != [] && rest[0] > s[0] then rest[0] else s[0]);
      assert s == [s[0]] + s[1..];
    }
  }

  // ----- Records -----

  /** The room in records lo to hi. */
  function Rooms(db: map<nat, Rec>, lo: nat, hi: nat): nat
    decreases hi + 1 - lo
  { if hi < lo then 0 else (if lo in db then Room(db[lo]) else 0) + Rooms(db, lo + 1, hi) }

  lemma {:induction false} RoomsSame(db: map<nat, Rec>, db': map<nat, Rec>, lo: nat, hi: nat)
    requires forall k :: lo <= k <= hi ==> (k in db <==> k in db') && (k in db ==> db[k] == db'[k])
    ensures Rooms(db, lo, hi) == Rooms(db', lo, hi)
    decreases hi + 1 - lo
  {
    if lo <= hi { RoomsSame(db, db', lo + 1, hi); }
  }

  /** The pages listed in records lo to hi, read from the highest key to the lowest. */
  function ReadDown(db: map<nat, Rec>, lo: nat, hi: nat): seq<nat>
    requires lo <= hi + 1
    decreases hi + 1 - lo
  {
    if hi + 1 == lo then [] else (if hi in db then Pages(db[hi]) else []) + (if hi == 0 then [] else ReadDown(db, lo, hi - 1))
  }

  lemma {:induction false} ReadSame(db: map<nat, Rec>, db': map<nat, Rec>, lo: nat, hi: nat)
    requires lo <= hi + 1 && forall k :: lo <= k <= hi ==> (k in db <==> k in db') && (k in db ==> db[k] == db'[k])
    ensures ReadDown(db, lo, hi) == ReadDown(db', lo, hi)
    decreases hi + 1 - lo
  {
    if lo <= hi && hi > 0 { ReadSame(db, db', lo, hi - 1); }
  }

  lemma {:induction false} ReadNothing(db: map<nat, Rec>, lo: nat, mid: nat, hi: nat)
    requires lo <= mid + 1 && mid <= hi && forall k :: mid < k <= hi && k in db ==> Pages(db[k]) == []
    ensures ReadDown(db, lo, hi) == ReadDown(db, lo, mid)
    decreases hi
  {
    if mid < hi { ReadNothing(db, lo, mid, hi - 1); }
  }

  predicate IsMin(ids: set<nat>, k: nat) { k in ids && forall x :: x in ids ==> k <= x }

  lemma {:induction false} MinExists(ids: set<nat>, k: nat)
    requires k in ids
    ensures exists m: nat :: IsMin(ids, m)
    decreases k
  {
    if x: nat :| x in ids && x < k {
      MinExists(ids, x);
    } else {
      assert IsMin(ids, k);
    }
  }

  // ----- What the operations may change -----

  /** mt_free_pgs and me_pglast only grow, loose pages are only used up, and me_pglast moves to a record
    * that is there. */
  predicate MayBecome(w: World, v: World, db: map<nat, Rec>, txnid: nat) {
    && w.free <= v.free && w.pglast <= v.pglast < txnid && (w.have ==> v.have)
    && (v.pglast != w.pglast ==> v.pglast in db)
    && (exists i :: 0 <= i <= |w.loose| && v.loose == w.loose[i..])
    && WorldOk(v)
  }

  /** me_pghead and me_pglast are set together; there are no loose pages without me_pghead by the time the
    * records are reserved. */
  predicate WorldOk(w: World) {
    Descending(w.head) && if w.have then w.pglast > 0 else w.head == [] && w.pglast == 0 && w.loose == []
  }

  /** The local variables; `lo` is the lowest id reserved so far. */
  datatype Locals = Locals(pglast: nat, headId: nat, lo: nat, freecnt: nat, headRoom: nat, totalRoom: nat)

  /** What the loop keeps.  Records up to pglast are the ones it reserved, without gaps; later ones are as
    * they were; the record of this transaction holds the pages counted so far. */
  ghost predicate Kept(db0: map<nat, Rec>, db: map<nat, Rec>, w: World, txnid: nat, x: Locals) {
    && Pages0(w, db, txnid, x) && Own(db, w, txnid, x.freecnt)
    && Below(db, x) && RoomsOk(db, x)
    && Later(db0, db, txnid, x.pglast)
  }

  predicate Pages0(w: World, db: map<nat, Rec>, txnid: nat, x: Locals) {
    && WorldOk(w) && x.pglast <= w.pglast < txnid && (x.pglast < w.pglast ==> w.pglast in db)
  }

  predicate Own(db: map<nat, Rec>, w: World, txnid: nat, freecnt: nat) {
    freecnt <= |w.free| && (freecnt > 0 ==> txnid in db && db[txnid] == List(w.free[..freecnt]) && Descending(w.free[..freecnt]))
  }

  ghost predicate Below(db: map<nat, Rec>, x: Locals) {
    && (forall k :: k in db && k <= x.pglast ==> x.lo <= k && db[k].Reserved?)
    && (forall k :: x.lo <= k <= x.pglast ==> k in db)
  }

  predicate RoomsOk(db: map<nat, Rec>, x: Locals) {
    && x.headId <= x.pglast && (x.pglast > 0 ==> x.headId > 0) && 0 < x.lo <= x.pglast + 1
    && (x.lo == x.headId || (x.lo == x.headId + 1 && x.headRoom == 0))
    && (x.lo == x.headId ==> x.lo in db && db[x.lo] == Reserved(x.headRoom))
    && x.totalRoom == Rooms(db, x.lo, x.pglast)
  }

  ghost predicate Later(db0: map<nat, Rec>, db: map<nat, Rec>, txnid: nat, from: nat) {
    forall k :: k > from && k != txnid ==> (k in db <==> k in db0) && (k in db ==> db[k] == db0[k])
  }

  predicate SameLists(w: World, v: World) { w.head == v.head && w.loose == v.loose }

  /** The lists are as they were, or as one of the first m operations left them. */
  ghost predicate LeftBy(ops: seq<World>, m: nat, w: World, v: World) {
    SameLists(v, w) || exists i :: 0 <= i < m <= |ops| && SameLists(v, ops[i])
  }

  /** Operations of the script have been done from w to v. */
  ghost predicate Ran(ops: seq<World>, w: World, rest: seq<World>, v: World) {
    |rest| <= |ops| && rest == ops[|ops| - |rest|..] && LeftBy(ops, |ops| - |rest|, w, v)
  }

  lemma LeftOn(ops: seq<World>, m: nat, n: nat, w: World, u: World, v: World)
    requires m <= n <= |ops| && LeftBy(ops, m, w, u) && LeftBy(ops[m..], n - m, u, v)
    ensures LeftBy(ops, n, w, v)
  {
    if i :| 0 <= i < n - m && SameLists(v, ops[m..][i]) {
      assert SameLists(v, ops[m + i]);
    } else if i :| 0 <= i < m && SameLists(u, ops[i]) {
      assert SameLists(v, ops[i]);
    }
  }

  lemma RanOn(ops: seq<World>, w: World, mid: seq<World>, u: World, rest: seq<World>, v: World)
    requires Ran(ops, w, mid, u) && Ran(mid, u, rest, v)
    ensures Ran(ops, w, rest, v)
  {
    hide LeftBy;
    LeftOn(ops, |ops| - |mid|, |ops| - |rest|, w, u, v);
  }

  /** The freed pages only grow, and nothing changes without the script. */
  ghost predicate Since(ops: seq<World>, w: World, rest: seq<World>, v: World) {
    && Ran(ops, w, rest, v) && |rest| <= |ops| && multiset(w.free) <= multiset(v.free)
    && (|rest| == |ops| ==> SameLists(v, w) && multiset(v.free) == multiset(w.free))
  }

  lemma SinceOn(ops: seq<World>, w: World, mid: seq<World>, u: World, rest: seq<World>, v: World)
    requires Since(ops, w, mid, u) && Since(mid, u, rest, v)
    ensures Since(ops, w, rest, v)
  {
    hide Ran, SameLists;
    RanOn(ops, w, mid, u, rest, v);
    if |rest| == |ops| { SameTwice(w, u, v); }
  }

  lemma SameTwice(w: World, u: World, v: World)
    requires SameLists(u, w) && SameLists(v, u)
    ensures SameLists(v, w)
  {
  }

  lemma RanNone(ops: seq<World>, w: World, v: World)
    requires SameLists(v, w)
    ensures Ran(ops, w, ops, v)
  {
  }

  lemma SinceNone(ops: seq<World>, w: World)
    ensures Since(ops, w, ops, w)
  {
    RanNone(ops, w, w);
  }

  lemma SinceIs(ops: seq<World>, w: World, rest: seq<World>, v: World)
    requires Ran(ops, w, rest, v) && |rest| <= |ops| && multiset(w.free) <= multiset(v.free)
    requires |rest| == |ops| ==> v == w.(free := v.free) && multiset(v.free) == multiset(w.free)
    ensures Since(ops, w, rest, v)
  {
  }

  lemma RanOne(ops: seq<World>, w: World, v: World)
    requires ops != [] && (v == w || v == ops[0])
    ensures Ran(ops, w, ops[1..], v)
  {
    assert SameLists(v, w) || SameLists(v, ops[0]);
  }

  // ----- Steps -----

  lemma StartKept(db0: map<nat, Rec>, w: World, txnid: nat)
    requires WorldOk(w) && w.pglast < txnid && (w.pglast > 0 ==> w.pglast in db0) && 0 !in db0
    ensures Kept(db0, db0, w, txnid, Locals(0, 0, 1, 0, 0, 0))
  {
  }

  lemma KeptMeans(db0: map<nat, Rec>, db: map<nat, Rec>, w: World, txnid: nat, x: Locals)
    requires Kept(db0, db, w, txnid, x)
    ensures WorldOk(w) && x.pglast <= w.pglast < txnid && x.headId <= x.pglast && x.freecnt <= |w.free| && (if x.pglast > 0 then x.headId > 0 else x.totalRoom == 0)
  {
  }

  lemma WorldMeans(w: World)
    requires WorldOk(w)
    ensures Descending(w.head) && (!w.have ==> w.head == [] == w.loose)
  {
  }

  /** The loose pages join me_pghead. */
  lemma FromKept(db0: map<nat, Rec>, db: map<nat, Rec>, w: World, txnid: nat, x: Locals, head: seq<nat>)
    requires Kept(db0, db, w, txnid, x) && (!w.have ==> head == []) && Descending(head)
    ensures Kept(db0, db, w.(head := head, loose := []), txnid, x)
  {
  }

  lemma TouchKept(db0: map<nat, Rec>, db: map<nat, Rec>, w: World, v: World, txnid: nat, x: Locals)
    requires Kept(db0, db, w, txnid, x) && (v == w || MayBecome(w, v, db, txnid))
    ensures Kept(db0, db, v, txnid, x)
  {
    assert w.free[..x.freecnt] == v.free[..x.freecnt];
  }

  /** Room is reserved in record headId, new or rewritten. */
  lemma PutKept(db0: map<nat, Rec>, db: map<nat, Rec>, w: World, txnid: nat, x: Locals, room: nat, base: int)
    requires Kept(db0, db, w, txnid, x) && x.headId > 0 && base == x.totalRoom - x.headRoom
    ensures base >= 0 && base == Rooms(db, x.headId + 1, x.pglast)
    ensures Kept(db0, db[x.headId := Reserved(room)], w, txnid, x.(lo := x.headId, headRoom := room, totalRoom := base + room))
  {
    var db' := db[x.headId := Reserved(room)];
    RoomsSame(db, db', x.headId + 1, x.pglast);
  }

  /** A new record is begun below the last one. */
  lemma NextKept(db0: map<nat, Rec>, db: map<nat, Rec>, w: World, txnid: nat, x: Locals)
    requires Kept(db0, db, w, txnid, x) && x.headId > 1 && x.headRoom > 0
    ensures Kept(db0, db, w, txnid, x.(headId := x.headId - 1, headRoom := 0))
  {
  }

  /** While records are deleted: those above `top` are as they were. */
  ghost predicate Reading(db0: map<nat, Rec>, db: map<nat, Rec>, w: World, txnid: nat, x: Locals, top: nat) {
    && Pages0(w, db, txnid, x) && Own(db, w, txnid, x.freecnt) && Below(db, x) && RoomsOk(db, x)
    && Later(db0, db, txnid, top) && x.pglast <= top <= w.pglast
  }

  lemma ReadBegins(db0: map<nat, Rec>, db: map<nat, Rec>, w: World, txnid: nat, x: Locals)
    requires Kept(db0, db, w, txnid, x)
    ensures Reading(db0, db, w, txnid, x, x.pglast)
  {
  }

  lemma ReadOn(db0: map<nat, Rec>, db: map<nat, Rec>, w: World, txnid: nat, x: Locals, top: nat)
    requires Reading(db0, db, w, txnid, x, top)
    ensures x.pglast <= w.pglast < txnid && (x.pglast < w.pglast ==> w.pglast in db)
  {
  }

  lemma ReadEnds(db0: map<nat, Rec>, db: map<nat, Rec>, w: World, txnid: nat, x: Locals, top: nat)
    requires Reading(db0, db, w, txnid, x, top) && x.pglast == w.pglast
    ensures Kept(db0, db, w, txnid, x)
  {
  }

  /** A record is deleted from the front: all that is left is above it. */
  lemma DeleteKept(db0: map<nat, Rec>, db: map<nat, Rec>, v: World, w: World, txnid: nat, x: Locals, k: nat, top: nat)
    requires Reading(db0, db, v, txnid, x, top) && x.pglast < v.pglast && IsMin(db.Keys, k)
    requires w == v || MayBecome(v, w, db - {k}, txnid)
    ensures 0 < k <= v.pglast && v.free <= w.free && |(db - {k}).Keys| < |db.Keys|
    ensures Reading(db0, db - {k}, w, txnid, x.(pglast := k, headId := k, lo := k + 1, headRoom := 0, totalRoom := 0),
      if k > top then k else top)
  {
    assert v.free[..x.freecnt] == w.free[..x.freecnt];
    assert (db - {k}).Keys == db.Keys - {k};
  }

  lemma SameSize(s: seq<nat>, t: seq<nat>)
    requires multiset(s) == multiset(t)
    ensures |s| == |t|
  {
    assert |multiset(s)| == |s| && |multiset(t)| == |t|;
  }

  lemma PrefixMembers(s: seq<nat>, t: seq<nat>)
    requires s <= t
    ensures multiset(s) <= multiset(t) && |s| <= |t|
  {
    assert t == s + t[|s|..];
  }

  /** The record of this transaction is written. */
  lemma OwnKept(db0: map<nat, Rec>, db: map<nat, Rec>, w: World, txnid: nat, x: Locals, pages: seq<nat>, n: nat)
    requires Kept(db0, db, w, txnid, x) && x.freecnt == 0 && n <= |pages| && Descending(pages)
    ensures Kept(db0, db[txnid := List(pages[..n])], w.(free := pages), txnid, x.(freecnt := n))
  {
    RoomsSame(db, db[txnid := List(pages[..n])], x.lo, x.pglast);
  }

  lemma NoneCounted(db0: map<nat, Rec>, db: map<nat, Rec>, w: World, txnid: nat, x: Locals)
    requires Kept(db0, db, w, txnid, x)
    ensures Kept(db0, db, w, txnid, x.(freecnt := 0))
  {
  }

  lemma OwnReserved(db0: map<nat, Rec>, db: map<nat, Rec>, w: World, txnid: nat, x: Locals, room: nat)
    requires Kept(db0, db, w, txnid, x) && x.freecnt == 0
    ensures Kept(db0, db[txnid := Reserved(room)], w, txnid, x)
  {
    RoomsSame(db, db[txnid := Reserved(room)], x.lo, x.pglast);
  }

  /** The size of the record for n more pages: amortized over the ids left if it is more than one page. */
  function RoomFor(n: int, headId: nat, maxfree: nat): (r: nat)
    requires headId > 0
    ensures r == n || r >= maxfree || (n < 0 && r == 0)
    ensures r != n && n >= 0 ==> headId > 1
  {
    if n > maxfree && headId > 1 then
      var q := n / headId;
      assert q == q / (maxfree + 1) * (maxfree + 1) + q % (maxfree + 1);
      q + (maxfree - q % (maxfree + 1))
    else if n < 0 then 0
    else n
  }

  /** A record that is more than a page and need not hold all fills k whole pages, and with as many records as
    * there are ids left such records hold all. */
  lemma WholePages(n: int, headId: nat, maxfree: nat) returns (k: nat)
    requires headId > 0
    ensures var r := RoomFor(n, headId, maxfree);
      if n > maxfree && headId > 1 then r + 1 == k * (maxfree + 1) && n / headId <= r <= n / headId + maxfree && r * headId + headId > n
      else r == if n < 0 then 0 else n
  {
    k := 0;
    if n > maxfree && headId > 1 {
      var q, m := n / headId, maxfree + 1;
      k := q / m + 1;
      RoundedUp(q, m);
      Quotient(n, headId);
      AtLeast(q, RoomFor(n, headId, maxfree), headId);
    }
  }

  lemma RoundedUp(q: nat, m: nat)
    requires m > 0
    ensures q - q % m + m == (q / m + 1) * m && 0 <= q % m < m
  {
    var d := q / m;
    assert q == d * m + q % m;
    assert (d + 1) * m == d * m + m;
  }

  lemma Quotient(n: nat, h: nat)
    requires h > 0
    ensures n / h * h + h > n
  {
    assert n == n / h * h + n % h;
  }

  lemma AtLeast(q: nat, r: nat, k: nat)
    requires q <= r
    ensures q * k <= r * k
  {
  }

  /** Without changes from outside, room is found in the end: the next record is begun, or this one is
    * full, or the room is exactly what is needed. */
  predicate Progress(x: Locals, y: Locals, mopLen: nat, maxfree: nat) {
    || y.totalRoom == mopLen
    || (y.headId < x.headId && y.headRoom >= maxfree)
    || (y.headId == x.headId && x.headRoom < maxfree <= y.headRoom && y.headId > 1)
  }

  /** Records lo to id - 1 have been filled in, the others not. */
  ghost predicate Filling(reserved: map<nat, Rec>, db: map<nat, Rec>, x: Locals, id: nat) {
    && db.Keys == reserved.Keys && (forall k :: k in db && (k < x.lo || id <= k) ==> db[k] == reserved[k])
    && (forall k :: x.lo <= k <= x.pglast ==> k in reserved && reserved[k].Reserved?)
    && (forall k :: k in db && k <= x.pglast ==> x.lo <= k)
  }

  lemma FillStep(reserved: map<nat, Rec>, db: map<nat, Rec>, x: Locals, id: nat, list: seq<nat>, mopLen: nat, len: nat)
    requires 0 < x.lo <= id <= x.pglast && Filling(reserved, db, x, id) && 0 < mopLen <= |list|
    requires Rooms(reserved, id, x.pglast) >= mopLen && ReadDown(db, x.lo, id - 1) == list[mopLen..]
    requires len == if Room(db[id]) > mopLen then mopLen else Room(db[id])
    ensures Filling(reserved, db[id := List(list[mopLen - len..mopLen])], x, id + 1)
    ensures ReadDown(db[id := List(list[mopLen - len..mopLen])], x.lo, id) == list[mopLen - len..]
    ensures Rooms(reserved, id + 1, x.pglast) >= mopLen - len
    ensures mopLen > len ==> id < x.pglast && id + 1 in db
  {
    hide ReadDown, Rooms, Filling;
    var db' := db[id := List(list[mopLen - len..mopLen])];
    FillNext(reserved, db, x, id, db'[id]);
    ReadSame(db, db', x.lo, id - 1);
    ReadDownTop(db', x.lo, id);
    assert list[mopLen - len..mopLen] + list[mopLen..] == list[mopLen - len..];
    RoomsFrom(reserved, id, x.pglast);
  }

  lemma FillNext(reserved: map<nat, Rec>, db: map<nat, Rec>, x: Locals, id: nat, rec: Rec)
    requires x.lo <= id <= x.pglast && Filling(reserved, db, x, id)
    ensures id in db && id in reserved && db[id] == reserved[id] && Filling(reserved, db[id := rec], x, id + 1)
    ensures id < x.pglast ==> id + 1 in db
  {
  }

  lemma RoomsFrom(db: map<nat, Rec>, lo: nat, hi: nat)
    requires lo <= hi && lo in db
    ensures Rooms(db, lo, hi) == Room(db[lo]) + Rooms(db, lo + 1, hi)
    ensures lo == hi ==> Rooms(db, lo + 1, hi) == 0
  {
  }

  lemma FillBegins(db0: map<nat, Rec>, db: map<nat, Rec>, w: World, txnid: nat, x: Locals)
    requires Kept(db0, db, w, txnid, x)
    ensures 0 < x.lo <= x.pglast + 1 && Filling(db, db, x, x.lo) && Rooms(db, x.lo, x.pglast) == x.totalRoom
    ensures ReadDown(db, x.lo, x.lo - 1) == [] == ReadDown(db, x.lo, x.pglast)
    ensures x.totalRoom > 0 ==> x.lo <= x.pglast && x.lo in db
    ensures forall k :: k in db && k <= x.pglast ==> x.lo <= k
    ensures Later(db0, db, txnid, x.pglast) && Own(db, w, txnid, x.freecnt)
  {
    ReadNothing(db, x.lo, x.lo - 1, x.pglast);
  }

  lemma FillEnds(db0: map<nat, Rec>, reserved: map<nat, Rec>, db: map<nat, Rec>, w: World, txnid: nat, x: Locals, id: nat)
    requires Filling(reserved, db, x, id + 1) && Kept(db0, reserved, w, txnid, x) && 0 < x.lo <= id <= x.pglast
    ensures ReadDown(db, x.lo, x.pglast) == ReadDown(db, x.lo, id)
    ensures forall k :: k in db && k <= x.pglast ==> x.lo <= k
    ensures Later(db0, db, txnid, x.pglast) && Own(db, w, txnid, x.freecnt)
  {
    ReadNothing(db, x.lo, id, x.pglast);
    hide ReadDown;
    assert x.freecnt > 0 ==> db[txnid] == reserved[txnid];
  }

  class Saver {
    const txnid: nat
    const maxfree: nat  // me_maxfree_1pg
    var db: map<nat, Rec>
    var w: World
    var script: seq<World>

    constructor (txnid: nat, maxfree: nat, db: map<nat, Rec>, w: World, script: seq<World>)
      ensures this.txnid == txnid && this.maxfree == maxfree && this.db == db && this.w == w && this.script == script
    {
      this.txnid, this.maxfree, this.db, this.w, this.script := txnid, maxfree, db, w, script;
    }

    /** What a cursor operation on the free database changes besides its record: the next change of the
      * script, unless it is one that cannot be. */
    method Touch()
      modifies this`w, this`script
      ensures |script| <= old(|script|) && (|script| == old(|script|) ==> w == old(w))
      ensures (w == old(w) || MayBecome(old(w), w, db, txnid)) && Ran(old(script), old(w), script, w)
    {
      hide Ran, MayBecome;
      RanNone(script, w, w);
      if script != [] {
        if MayBecome(w, script[0], db, txnid) { w := script[0]; }
        RanOne(script, old(w), w);
        script := script[1..];
      }
    }

    /** mdb_cursor_first and mdb_cursor_del. */
    method DeleteFirst() returns (k: nat)
      requires db.Keys != {}
      modifies this
      ensures IsMin(old(db.Keys), k) && db == old(db) - {k}
      ensures |script| <= old(|script|) && (|script| == old(|script|) ==> w == old(w))
      ensures (w == old(w) || MayBecome(old(w), w, db, txnid)) && Ran(old(script), old(w), script, w)
    {
      var any :| any in db.Keys;
      MinExists(db.Keys, any);
      k :| IsMin(db.Keys, k);
      db := db - {k};
      Touch();
    }

    /** mdb_cursor_put with MDB_RESERVE. */
    method Put(k: nat, room: nat)
      modifies this
      ensures db == old(db)[k := Reserved(room)]
      ensures |script| <= old(|script|) && (|script| == old(|script|) ==> w == old(w))
      ensures (w == old(w) || MayBecome(old(w), w, db, txnid)) && Ran(old(script), old(w), script, w)
    {
      db := db[k := Reserved(room)];
      Touch();
    }

    ghost predicate Saving(db0: map<nat, Rec>, x: Locals)
      reads this
    { Kept(db0, db, w, txnid, x) }

    /** As long as records have been read that are still there: delete them, and those reserved for them. */
    method DeleteRead(ghost db0: map<nat, Rec>, x0: Locals) returns (x: Locals)
      requires Saving(db0, x0)
      modifies this
      ensures Saving(db0, x) && x.pglast == w.pglast && x.freecnt == x0.freecnt && (txnid in db <==> txnid in old(db))
      ensures |script| <= old(|script|) && (|script| == old(|script|) ==> w == old(w))
      ensures x0.pglast == old(w.pglast) ==> x == x0 && w == old(w) && script == old(script)
      ensures multiset(old(w.free)) <= multiset(w.free) && Since(old(script), old(w), script, w)
    {
      hide Reading, Ran, MayBecome, IsMin, Kept, Since;
      RanNone(script, w, w);
      x := x0;
      ghost var top: nat := x.pglast;
      ReadBegins(db0, db, w, txnid, x);
      while x.pglast < w.pglast
        invariant Reading(db0, db, w, txnid, x, top) && x.freecnt == x0.freecnt
        invariant txnid in db <==> txnid in old(db)
        invariant |script| <= old(|script|) && (|script| == old(|script|) ==> w == old(w))
        invariant x0.pglast == old(w.pglast) ==> x == x0 && w == old(w) && script == old(script)
        invariant old(w.free) <= w.free && Ran(old(script), old(w), script, w)
        decreases |script|, |db.Keys|
      {
        ghost var was, v, ops := db, w, script;
        ReadOn(db0, db, w, txnid, x, top);
        var k := DeleteFirst();
        RanOn(old(script), old(w), ops, v, script, w);
        DeleteKept(db0, was, v, w, txnid, x, k, top);
        x := x.(pglast := k, headId := k, lo := k + 1, headRoom := 0, totalRoom := 0);
        if k > top { top := k; }
      }
      ReadOn(db0, db, w, txnid, x, top);
      ReadEnds(db0, db, w, txnid, x, top);
      PrefixMembers(old(w.free), w.free);
      SinceIs(old(script), old(w), script, w);
    }

    method PutOwn(ghost db0: map<nat, Rec>, ghost x: Locals, room: nat)
      requires Saving(db0, x) && x.freecnt == 0
      modifies this
      ensures Saving(db0, x) && txnid in db
      ensures |script| <= old(|script|) && (|script| == old(|script|) ==> w == old(w))
      ensures old(w.free) <= w.free && w.pglast >= old(w.pglast) && Ran(old(script), old(w), script, w)
    {
      hide Ran;
      OwnReserved(db0, db, w, txnid, x, room);
      ghost var v := w;
      Put(txnid, room);
      TouchKept(db0, db, v, w, txnid, x);
    }

    /** Room for the record of this transaction, again as long as writing it frees more pages. */
    method ReserveOwn(ghost db0: map<nat, Rec>, ghost x: Locals) returns (freecnt: nat)
      requires Saving(db0, x) && x.freecnt == 0
      modifies this
      ensures Saving(db0, x) && freecnt == |w.free| && txnid in db
      ensures |script| <= old(|script|) && (|script| == old(|script|) ==> w == old(w))
      ensures old(w.free) <= w.free && w.pglast >= old(w.pglast) && Ran(old(script), old(w), script, w)
    {
      hide Kept, MayBecome, WorldOk, Ran;
      freecnt := |w.free|;
      PutOwn(db0, x, freecnt);
      while freecnt < |w.free|
        invariant Saving(db0, x) && freecnt <= |w.free| && txnid in db
        invariant |script| <= old(|script|) && (|script| == old(|script|) ==> w == old(w) && freecnt == |w.free|)
        invariant old(w.free) <= w.free && w.pglast >= old(w.pglast) && Ran(old(script), old(w), script, w)
        decreases |script|, |w.free| - freecnt
      {
        ghost var v, ops := w, script;
        freecnt := |w.free|;
        PutOwn(db0, x, freecnt);
        RanOn(old(script), old(w), ops, v, script, w);
      }
    }

    /** The list is sorted and stored. */
    method StoreOwn(ghost db0: map<nat, Rec>, ghost x: Locals, freecnt: nat)
      requires Saving(db0, x) && x.freecnt == 0 && freecnt == |w.free| && txnid in db
      modifies this`w, this`db
      ensures Saving(db0, x.(freecnt := freecnt)) && txnid in db
      ensures w == old(w).(free := w.free) && |w.free| == freecnt && multiset(w.free) == multiset(old(w.free))
    {
      hide Kept, Descending, Sorted;
      SortedOk(w.free);
      SameSize(w.free, Sorted(w.free));
      OwnKept(db0, db, w, txnid, x, Sorted(w.free), freecnt);
      w := w.(free := Sorted(w.free));
      db := db[txnid := List(w.free[..freecnt])];
    }

    /** Save the pages freed by this transaction in one record, again if it grew meanwhile. */
    method SaveOwn(ghost db0: map<nat, Rec>, x0: Locals) returns (x: Locals)
      requires Saving(db0, x0) && x0.freecnt < |w.free|
      modifies this
      ensures Saving(db0, x) && x == x0.(freecnt := |w.free|) && txnid in db
      ensures |script| <= old(|script|)
      ensures |script| == old(|script|) ==> w == old(w).(free := w.free) && |w.free| == old(|w.free|)
      ensures multiset(old(w.free)) <= multiset(w.free) && w.pglast >= old(w.pglast) && Since(old(script), old(w), script, w)
      ensures |script| == old(|script|) ==> multiset(w.free) == multiset(old(w.free))
    {
      hide Kept, Descending, Sorted, WorldOk, Ran, Since;
      RanNone(script, w, w);
      if x0.freecnt == 0 {
        ghost var v := w;
        Touch();
        TouchKept(db0, db, v, w, txnid, x0);
      }
      NoneCounted(db0, db, w, txnid, x0);
      ghost var v, ops := w, script;
      var freecnt := ReserveOwn(db0, x0.(freecnt := 0));
      PrefixMembers(old(w.free), w.free);
      RanOn(old(script), old(w), ops, v, script, w);
      v := w;
      StoreOwn(db0, x0.(freecnt := 0), freecnt);
      RanNone(script, v, w);
      RanOn(old(script), old(w), script, v, script, w);
      SinceIs(old(script), old(w), script, w);
      x := x0.(freecnt := freecnt);
    }

    /** Reserve room for `mopLen` pages, in record headId or in a new one. */
    method Reserve(ghost db0: map<nat, Rec>, x0: Locals, mopLen: nat) returns (x: Locals)
      requires Saving(db0, x0) && x0.headId > 0 && maxfree > 0 && x0.totalRoom != mopLen
      modifies this
      ensures Saving(db0, x) && x.pglast == x0.pglast && x.freecnt == x0.freecnt && (txnid in db <==> txnid in old(db))
      ensures |script| <= old(|script|) && (|script| == old(|script|) ==> w == old(w))
      ensures old(w.free) <= w.free
      ensures x0.totalRoom < mopLen ==> Progress(x0, x, mopLen, maxfree)
      ensures x.headId <= x0.headId && Since(old(script), old(w), script, w)
    {
      hide Kept, WorldOk, Ran, Since;
      KeptMeans(db0, db, w, txnid, x0);
      x := x0;
      if !(x.totalRoom >= mopLen) && x.headRoom >= maxfree && x.headId > 1 {
        NextKept(db0, db, w, txnid, x);
        x := x.(headId := x.headId - 1, headRoom := 0);
      }
      var totalRoom: int := x.totalRoom - x.headRoom;
      var headRoom := RoomFor(mopLen - totalRoom, x.headId, maxfree);
      ghost var v := w;
      PutKept(db0, db, w, txnid, x, headRoom, totalRoom);
      Put(x.headId, headRoom);
      x := x.(lo := x.headId, headRoom := headRoom, totalRoom := totalRoom + headRoom);
      PrefixMembers(v.free, w.free);
      SinceIs(old(script), old(w), script, w);
      TouchKept(db0, db, v, w, txnid, x);
    }

    /** The main loop of mdb_freelist_save.  It ends if the operations stop changing the lists. */
    method ReserveAll(ghost db0: map<nat, Rec>) returns (x: Locals)
      requires maxfree > 0 && WorldOk(w) && w.pglast < txnid && (w.pglast > 0 ==> w.pglast in db) && 0 !in db
      requires db == db0 && txnid !in db
      modifies this
      ensures Saving(db0, x) && x.pglast == w.pglast && x.freecnt == |w.free| && (w.free == [] ==> txnid !in db)
      ensures |w.head| + |w.loose| <= x.totalRoom
      ensures Since(old(script), old(w), script, w)
    {
      hide Kept, WorldOk, MayBecome, Descending, Ran, Since;
      var more: int := 1;
      x := Locals(0, 0, 1, 0, 0, 0);
      StartKept(db0, w, txnid);
      SinceNone(script, w);
      while true
        invariant Saving(db0, x) && more >= 0 && (x.freecnt == 0 ==> txnid !in db)
        invariant Since(old(script), old(w), script, w)
        decreases |script|, w.pglast - x.pglast, |w.free| - x.freecnt, more,
          if x.totalRoom == |w.head| + |w.loose| then 0 else 1, x.headId, if x.headRoom >= maxfree then 0 else 1
      {
        ghost var v, ops := w, script;
        KeptMeans(db0, db, w, txnid, x);
        x := DeleteRead(db0, x);
        SinceOn(old(script), old(w), ops, v, script, w);
        v, ops := w, script;
        KeptMeans(db0, db, w, txnid, x);
        if x.freecnt < |w.free| {
          x := SaveOwn(db0, x);
            SinceOn(old(script), old(w), ops, v, script, w);
          KeptMeans(db0, db, w, txnid, x);
          continue;
        }
        var mopLen := |w.head| + |w.loose|;
        if x.totalRoom >= mopLen {
          if x.totalRoom == mopLen { break; }
          more := more - 1;
          if more < 0 { break; }
        }
        x := Reserve(db0, x, mopLen);
        SinceOn(old(script), old(w), ops, v, script, w);
        KeptMeans(db0, db, w, txnid, x);
      }
    }

    /** mdb_cursor_first and mdb_cursor_next: the next key above `after`. */
    method NextKey(after: int) returns (k: nat, found: bool)
      ensures found <==> exists x :: x in db && x > after
      ensures found ==> k in db && k > after && forall x :: x in db && x > after ==> k <= x
    {
      var keys := set x | x in db && x > after;
      assert forall x :: x in db && x > after ==> x in keys;
      if keys == {} {
        return 0, false;
      }
      var any :| any in keys;
      MinExists(keys, any);
      k :| IsMin(keys, k);
      found := true;
    }

    /** Fill in the reserved records: the lowest pages go under the lowest key. */
    method FillIn(ghost db0: map<nat, Rec>, x: Locals)
      requires Saving(db0, x) && |w.head| <= x.totalRoom && x.pglast == w.pglast
      modifies this`db
      ensures 0 < x.lo <= x.pglast + 1 && ReadDown(db, x.lo, x.pglast) == w.head
      ensures forall k :: k in db && k <= x.pglast ==> x.lo <= k
      ensures Later(db0, db, txnid, x.pglast) && Own(db, w, txnid, x.freecnt) && (txnid in db <==> txnid in old(db))
    {
      hide ReadDown, Rooms, Filling;
      var list := w.head;
      var mopLen := |list|;
      ghost var reserved := db;
      FillBegins(db0, db, w, txnid, x);
      if mopLen == 0 { return; }
      var id, found := NextKey(-1);
      while true
        invariant (txnid in db <==> txnid in old(db)) && 0 < mopLen <= |list| && x.lo <= id <= x.pglast && Rooms(reserved, id, x.pglast) >= mopLen && id in db
        invariant Filling(reserved, db, x, id) && ReadDown(db, x.lo, id - 1) == list[mopLen..]
        decreases x.pglast - id
      {
        var len := Room(db[id]);
        if len > mopLen { len := mopLen; }
        FillStep(reserved, db, x, id, list, mopLen, len);
        db := db[id := List(list[mopLen - len..mopLen])];
        mopLen := mopLen - len;
        if mopLen == 0 { break; }
        assert id + 1 in db;
        id, found := NextKey(id);
      }
      FillEnds(db0, reserved, db, w, txnid, x, id);
    }

    /** A cursor operation, or, when nothing may be reused, the loose pages go to mt_free_pgs. */
    method StartSave()
      requires w.pglast < txnid && 0 !in db
      requires Descending(w.head) && if w.have then w.pglast in db && w.pglast > 0 else w.head == [] && w.pglast == 0
      modifies this`w, this`script
      ensures WorldOk(w) && w.pglast < txnid && (w.pglast > 0 ==> w.pglast in db)
      ensures multiset(old(w.free)) <= multiset(w.free)
      ensures |script| <= old(|script|) && Ran(old(script), Started(old(w)), script, w)
      ensures !old(w.have) || |script| == old(|script|) ==> w == Started(old(w))
    {
      hide Descending, Ran;
      if w.have {
        ghost var v := w;
        Touch();
        PrefixMembers(v.free, w.free);
      } else {
        w := w.(free := w.free + w.loose, loose := []);
        RanNone(script, w, w);
        PrefixMembers(old(w.free), w.free);
      }
    }

    /** Loose pages that are left join me_pghead. */
    method TakeLoose(ghost db0: map<nat, Rec>, ghost x: Locals)
      requires Saving(db0, x)
      modifies this`w
      ensures Saving(db0, x) && w == old(w).(head := w.head, loose := []) && Descending(w.head)
      ensures multiset(w.head) == multiset(old(w.head + w.loose)) && |w.head| == old(|w.head| + |w.loose|)
    {
      hide Kept, Descending, Sorted;
      KeptMeans(db0, db, w, txnid, x);
      WorldMeans(w);
      assert w.loose == [] ==> w.head + w.loose == w.head;
      if w.loose != [] {
        SortedOk(w.head + w.loose);
        SameSize(w.head + w.loose, Sorted(w.head + w.loose));
        FromKept(db0, db, w, txnid, x, Sorted(w.head + w.loose));
        w := w.(head := Sorted(w.head + w.loose), loose := []);
      }
    }

    /** mdb_freelist_save.  All pages that were free or were freed by this transaction end up in records:
      * the ones that may be reused at once under keys up to me_pglast, each once, which concatenate, from the
      * highest key to the lowest, to me_pghead; the others under this transaction's id.  `left` is what the
      * last of the operations left: without any, the lists that there were. */
    method Save() returns (x: Locals, ghost left: World)
      requires maxfree > 0 && w.pglast < txnid && 0 !in db && txnid !in db
      requires Descending(w.head) && if w.have then w.pglast in db && w.pglast > 0 else w.head == [] && w.pglast == 0
      modifies this
      ensures Saved(old(db), db, w, txnid, x)
      ensures multiset(ReadDown(db, x.lo, w.pglast)) == multiset(left.head + left.loose) && w == left.(head := w.head, loose := [])
      ensures Ran(old(script), Started(old(w)), script, left)
      ensures multiset(Started(old(w)).free) <= multiset(w.free)
      ensures |script| == old(|script|) ==> SameLists(left, Started(old(w))) && multiset(w.free) == multiset(Started(old(w)).free)
    {
      hide Kept, WorldOk, MayBecome, Descending, ReadDown, Ran;
      ghost var db0 := db;
      StartSave();
      ghost var v, ops := w, script;
      x := ReserveAll(db0);
      RanOn(old(script), Started(old(w)), ops, v, script, w);
      left := w;
      TakeLoose(db0, x);
      KeptMeans(db0, db, w, txnid, x);
      FillIn(db0, x);
      assert w.free[..x.freecnt] == w.free;
    }
  }

  /** Without me_pghead the loose pages count as freed; with it they may be reused. */
  function Started(w: World): World { if w.have then w else w.(free := w.free + w.loose, loose := []) }

  /** What mdb_freelist_save leaves. */
  ghost predicate Saved(db0: map<nat, Rec>, db: map<nat, Rec>, w: World, txnid: nat, x: Locals) {
    && 0 < x.lo <= w.pglast + 1 && w.loose == [] && Descending(w.head) && w.pglast < txnid
    && (forall k :: k in db && k <= w.pglast ==> x.lo <= k)
    && ReadDown(db, x.lo, w.pglast) == w.head
    && (if w.free != [] then txnid in db && db[txnid] == List(w.free) && Descending(w.free) else txnid !in db)
    && Later(db0, db, txnid, w.pglast)
  }

  // ----- Each page is listed once -----

  lemma {:induction false} ReadDownHas(db: map<nat, Rec>, lo: nat, hi: nat, p: nat)
    requires lo <= hi + 1
    ensures p in ReadDown(db, lo, hi) <==> exists k :: lo <= k <= hi && k in db && p in Pages(db[k])
    decreases hi + 1 - lo
  {
    if lo <= hi && hi > 0 { ReadDownHas(db, lo, hi - 1, p); }
  }

  /** A list without repetitions has no page in two records. */
  lemma {:induction false} ReadDownOnce(db: map<nat, Rec>, lo: nat, hi: nat, k: nat, l: nat, p: nat)
    requires lo <= k < l <= hi && k in db && l in db && p in Pages(db[k]) && p in Pages(db[l])
    ensures multiset(ReadDown(db, lo, hi))[p] >= 2
    decreases hi
  {
    hide *;
    var top, rest := if hi in db then Pages(db[hi]) else [], ReadDown(db, lo, hi - 1);
    ReadDownTop(db, lo, hi);
    CountBoth(top, rest, p);
    if l == hi {
      ReadDownHas(db, lo, hi - 1, p);
    } else {
      ReadDownOnce(db, lo, hi - 1, k, l, p);
    }
  }

  lemma ReadDownTop(db: map<nat, Rec>, lo: nat, hi: nat)
    requires lo <= hi && hi > 0
    ensures ReadDown(db, lo, hi) == (if hi in db then Pages(db[hi]) else []) + ReadDown(db, lo, hi - 1)
  {
  }

  lemma CountBoth(a: seq<nat>, b: seq<nat>, p: nat)
    ensures multiset(a + b)[p] == multiset(a)[p] + multiset(b)[p]
    ensures p in a ==> multiset(a)[p] >= 1
    ensures p in b ==> multiset(b)[p] >= 1
  {
    assert multiset(a + b) == multiset(a) + multiset(b);
  }

  /** The records with keys up to me_pglast, as sets of pages. */
  function Leftover(db: map<nat, Rec>, pglast: nat): Mvcc.Records {
    map k | k in db && k <= pglast :: (set p | p in Pages(db[k]))
  }

  /** What is left behind is what the readers' protocol allows: keys 1 to me_pglast, every page of me_pghead
    * and every loose page listed once.  `left` and `work` are the lists when the last operation is done. */
  lemma SavedIsLeftover(db0: map<nat, Rec>, db: map<nat, Rec>, w: World, txnid: nat, x: Locals, left: World, work: Mvcc.Work)
    requires Saved(db0, db, w, txnid, x) && multiset(ReadDown(db, x.lo, w.pglast)) == multiset(left.head + left.loose)
    requires w.pglast == 0 ==> left.head == [] == left.loose
    requires forall p :: multiset(left.head + left.loose)[p] <= 1
    requires work.pglast == w.pglast && (forall p :: p in left.head <==> p in work.pghead) && forall p :: p in left.loose <==> p in work.loose
    ensures Mvcc.LeftoverOk(work, Leftover(db, w.pglast))
  {
    forall p: nat ensures p in w.head <==> w.pglast > 0 && (p in work.pghead || p in work.loose) {
      assert p in w.head <==> p in multiset(left.head + left.loose);
      assert p in left.head + left.loose <==> p in left.head || p in left.loose;
    }
    LeftoverIs(db0, db, w, txnid, x, work);
  }

  lemma LeftoverIs(db0: map<nat, Rec>, db: map<nat, Rec>, w: World, txnid: nat, x: Locals, work: Mvcc.Work)
    requires Saved(db0, db, w, txnid, x) && work.pglast == w.pglast
    requires forall p :: multiset(w.head)[p] <= 1
    requires forall p :: p in w.head <==> w.pglast > 0 && (p in work.pghead || p in work.loose)
    ensures Mvcc.LeftoverOk(work, Leftover(db, w.pglast))
  {
    var left := Leftover(db, w.pglast);
    forall p: nat ensures Mvcc.Listed(left, p) <==> p in w.head {
      ReadDownHas(db, x.lo, w.pglast, p);
      if p in w.head {
        var k :| x.lo <= k <= w.pglast && k in db && p in Pages(db[k]);
        assert k in left && p in left[k];
      }
    }
    forall k, l | k in left && l in left && k != l ensures left[k] !! left[l] {
      forall p | p in left[k] ensures p !in left[l] {
        if p in left[l] { ReadDownOnce(db, x.lo, w.pglast, if k < l then k else l, if k < l then l else k, p); }
      }
    }
  }

  function AsSets(db: map<nat, Rec>): Mvcc.Records { map k | k in db :: (set p | p in Pages(db[k])) }

  /** The whole free database afterwards is what the readers' protocol says a commit leaves: the records
    * above me_pglast, the leftover, and a record of this transaction if and only if it freed pages. */
  lemma SavedIsCommit(db0: map<nat, Rec>, db: map<nat, Rec>, w: World, txnid: nat, x: Locals, work: Mvcc.Work)
    requires Saved(db0, db, w, txnid, x) && txnid !in db0
    requires forall k :: k in work.recs <==> k in db0 && k > w.pglast
    requires forall k :: k in work.recs ==> work.recs[k] == AsSets(db0)[k]
    requires Mvcc.Freed(work) == set p | p in w.free
    ensures AsSets(db) == Mvcc.SavedFree(work, txnid, Leftover(db, w.pglast))
  {
    var sets, saved := AsSets(db), Mvcc.SavedFree(work, txnid, Leftover(db, w.pglast));
    if w.free != [] { assert w.free[0] in Mvcc.Freed(work); }
    forall k ensures k in sets <==> k in saved { }
    forall k | k in sets ensures sets[k] == saved[k] { }
  }
}
