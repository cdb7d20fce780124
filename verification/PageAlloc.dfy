/** mdb_page_alloc: pages come from the loose pages, from me_pghead, from older freeDB records, or from
  * the end of the map. */
module PageAlloc {
  import opened Midl
  import opened MidlGrow
  import opened PageRuns

  /** A freeDB record: pages freed by transaction `id`. */
  datatype Record = Record(id: nat, pages: seq<nat>)

  datatype Outcome = Loose(pgno: nat) | Page(pgno: nat) | MapFull | TxnFull

  predicate RecordsOk(db: seq<Record>) {
    && (forall i :: 0 <= i < |db| ==> 0 < db[i].id && Strictly(db[i].pages))
    && (forall i, j :: 0 <= i < j < |db| ==> db[i].id < db[j].id)
  }

  /** The first record above `last`. */
  function Skip(db: seq<Record>, last: nat): (k: nat)
    ensures k <= |db| && (k < |db| ==> db[k].id > last) && forall i :: 0 <= i < k ==> db[i].id <= last
  { SkipFrom(db, last, 0) }

  function SkipFrom(db: seq<Record>, last: nat, k: nat): (r: nat)
    requires k <= |db|
    ensures k <= r <= |db| && (r < |db| ==> db[r].id > last) && forall i :: k <= i < r ==> db[i].id <= last
    decreases |db| - k
  { if k == |db| || db[k].id > last then k else SkipFrom(db, last, k + 1) }

  lemma SkipIs(db: seq<Record>, last: nat, k: nat)
    requires k <= |db| && (k < |db| ==> db[k].id > last) && forall i :: 0 <= i < k ==> db[i].id <= last
    ensures Skip(db, last) == k
  {
  }

  function Unread(db: seq<Record>, last: nat): seq<Record> { db[Skip(db, last)..] }

  /** `last` is the id of a record. */
  predicate ReadUpTo(db: seq<Record>, last: nat) { exists i :: 0 <= i < |db| && db[i].id == last }

  function PagesOf(rs: seq<Record>): set<nat> { set r, x | r in rs && x in r.pages :: x }

  /** The number of pages in the records. */
  function Count(rs: seq<Record>): nat { if rs == [] then 0 else |rs[0].pages| + Count(rs[1..]) }

  const LIMIT: nat := 0xC000_0000  // longer lists would overflow the unsigned arithmetic of mdb_midl_need

  predicate InRange(head: seq<nat>, rs: seq<Record>) {
    && |head| + Count(rs) <= LIMIT
    && forall r, id :: r in rs && id in r.pages ==> id <= MAXID
  }

  // ----- What a search can find -----

  ghost predicate RunIn(pages: set<nat>, num: nat) { exists pg: nat :: Run(pg, num) <= pages }

  /** How often a list long enough for a run is searched while the first n records are read. */
  function Searches(len: nat, rs: seq<Record>, n: nat, num: nat): nat
    requires n <= |rs|
  { (if n == 0 then 0 else Searches(len, rs, n - 1, num)) + (if len + Count(rs[..n]) >= num then 1 else 0) }

  /** There is a run once the first n records have been read; they are older than every reader, and the search
    * has not given up before. */
  ghost predicate FoundWith(head: seq<nat>, rs: seq<Record>, num: nat, scanned: nat, n: nat) {
    && n <= |rs| && (forall i :: 0 <= i < n ==> rs[i].id < scanned)
    && RunIn(ToSet(head) + PagesOf(rs[..n]), num)
    && (n > 0 ==> Searches(|head|, rs, n - 1, num) <= num * 60)
  }

  /** There is a run in what may be read before the search gives up, after num * 60 + 1 vain searches. */
  ghost predicate CanFind(head: seq<nat>, rs: seq<Record>, num: nat, scanned: nat) {
    exists n :: 0 <= n <= |rs| && FoundWith(head, rs, num, scanned, n)
  }

  lemma RunInMore(a: set<nat>, b: set<nat>, num: nat)
    requires RunIn(a, num) && a <= b
    ensures RunIn(b, num)
  {
    var pg: nat :| Run(pg, num) <= a;
    assert Run(pg, num) <= b;
  }

  lemma PagesOfMore(rs: seq<Record>, m: nat, n: nat)
    requires m <= n <= |rs|
    ensures PagesOf(rs[..m]) <= PagesOf(rs[..n])
  {
    assert forall r :: r in rs[..m] ==> r in rs[..n];
  }

  lemma {:induction false} SearchesGrow(len: nat, rs: seq<Record>, m: nat, n: nat, num: nat)
    requires m <= n <= |rs|
    ensures Searches(len, rs, m, num) <= Searches(len, rs, n, num)
    decreases n
  {
    if m < n { SearchesGrow(len, rs, m, n - 1, num); }
  }

  /** The search has read n records and found no run: nothing more may be read, or it has searched too often. */
  lemma NothingFound(head: seq<nat>, rs: seq<Record>, num: nat, scanned: nat, n: nat)
    requires n <= |rs| && !RunIn(ToSet(head) + PagesOf(rs[..n]), num)
    requires (n < |rs| ==> rs[n].id >= scanned) || Searches(|head|, rs, n, num) > num * 60
    ensures !CanFind(head, rs, num, scanned)
  {
    hide RunIn, PagesOf, ToSet, Searches;
    forall m | 0 <= m <= |rs| ensures !FoundWith(head, rs, num, scanned, m) {
      if m <= n {
        PagesOfMore(rs, m, n);
        if RunIn(ToSet(head) + PagesOf(rs[..m]), num) { RunInMore(ToSet(head) + PagesOf(rs[..m]), ToSet(head) + PagesOf(rs[..n]), num); }
      } else {
        SearchesGrow(|head|, rs, n, m - 1, num);
      }
    }
  }

  lemma {:induction false} CountNext(rs: seq<Record>, n: nat)
    requires n < |rs|
    ensures Count(rs[..n + 1]) == Count(rs[..n]) + |rs[n].pages|
  {
    if n == 0 {
      assert rs[..1] == [rs[0]] && rs[..1][1..] == [];
    } else {
      CountNext(rs[1..], n - 1);
      assert rs[..n + 1][1..] == rs[1..][..n] && rs[..n][1..] == rs[1..][..n - 1];
    }
  }

  lemma PagesNext(rs: seq<Record>, n: nat)
    requires n < |rs|
    ensures PagesOf(rs[..n + 1]) == PagesOf(rs[..n]) + ToSet(rs[n].pages)
  {
    assert rs[..n + 1] == rs[..n] + [rs[n]];
  }

  lemma PagesOfFirst(rs: seq<Record>)
    requires rs != []
    ensures PagesOf(rs) == ToSet(rs[0].pages) + PagesOf(rs[1..])
  {
    assert rs == [rs[0]] + rs[1..];
  }

  /** No page is listed twice: not in the head and a record, and not in two records. */
  predicate Separate(head: seq<nat>, rs: seq<Record>) {
    && (forall i :: 0 <= i < |rs| ==> ToSet(head) !! ToSet(rs[i].pages))
    && (forall i, j :: 0 <= i < j < |rs| ==> ToSet(rs[i].pages) !! ToSet(rs[j].pages))
  }

  lemma SeparateRest(head: seq<nat>, rs: seq<Record>, head': seq<nat>)
    requires Separate(head, rs) && rs != [] && ToSet(head') == ToSet(head) + ToSet(rs[0].pages)
    ensures Separate(head', rs[1..])
  {
  }

  lemma SeparateLess(head: seq<nat>, rs: seq<Record>, head': seq<nat>)
    requires Separate(head, rs) && ToSet(head') <= ToSet(head)
    ensures Separate(head', rs)
  {
  }

  lemma SeparateMore(head: seq<nat>, rs: seq<Record>, head': seq<nat>, more: set<nat>)
    requires Separate(head, rs) && ToSet(head') == ToSet(head) + more && more !! PagesOf(rs)
    ensures Separate(head', rs)
  {
    forall i | 0 <= i < |rs| ensures more !! ToSet(rs[i].pages) {
      forall x | x in rs[i].pages ensures x !in more { assert rs[i] in rs; }
    }
  }

  lemma SeparatePages(head: seq<nat>, rs: seq<Record>)
    requires Separate(head, rs)
    ensures ToSet(head) !! PagesOf(rs)
  {
    forall r, x | r in rs && x in r.pages ensures x !in ToSet(head) {
      var i :| 0 <= i < |rs| && rs[i] == r;
      assert x in ToSet(rs[i].pages);
    }
  }

  /** Two strictly descending lists of different pages merge into one. */
  lemma MergedStrictly(s: seq<nat>, x: seq<nat>, t: seq<nat>)
    requires Strictly(s) && Strictly(x) && ToSet(s) !! ToSet(x)
    requires Descending(t) && multiset(t) == multiset(s) + multiset(x)
    ensures Strictly(t) && ToSet(t) == ToSet(s) + ToSet(x)
  {
    forall y ensures y in t <==> y in s || y in x {
      assert y in t <==> y in multiset(t);
    }
    forall i, j | 0 <= i < j < |t| ensures t[i] > t[j] {
      if t[i] == t[j] {
        TwiceCounted(t, i, j);
        NotTwice(s, x, t[i]);
      }
    }
  }

  lemma NotTwice(s: seq<nat>, x: seq<nat>, v: nat)
    requires Strictly(s) && Strictly(x) && ToSet(s) !! ToSet(x)
    ensures multiset(s)[v] + multiset(x)[v] <= 1
  {
    OnceCounted(s, v);
    OnceCounted(x, v);
    assert v in s ==> v in ToSet(s);
    assert v in x ==> v in ToSet(x);
  }

  lemma {:induction false} OnceCounted(s: seq<nat>, v: nat)
    requires Strictly(s)
    ensures multiset(s)[v] == if v in s then 1 else 0
  {
    if s != [] {
      var n := |s| - 1;
      assert s == s[..n] + [s[n]];
      OnceCounted(s[..n], v);
      if v == s[n] { assert forall i :: 0 <= i < n ==> s[..n][i] != v; }
    }
  }

  // ----- The allocator -----

  class Allocator {
    var head: Idl  // me_pghead
    var have: bool  // me_pghead is not NULL
    var pglast: nat
    var pgoldest: nat
    var nextPgno: nat
    const maxpg: nat
    var freeDb: seq<Record>
    var loose: seq<nat>
    var dirtyRoom: nat

    ghost predicate Valid()
      reads this, head, head.buf
    {
      && head.Valid() && (!have ==> head.Contents() == [] && pglast == 0)
      && Strictly(head.Contents()) && RecordsOk(freeDb)
      && Separate(head.Contents(), Unread(freeDb, pglast)) && InRange(head.Contents(), Unread(freeDb, pglast))
    }

    /** The pages that may still be handed out from lists: the head and the records not yet read. */
    ghost function Free(): set<nat>
      requires head.Valid()
      reads this`head, this`freeDb, this`pglast, head, head.buf
    { ToSet(head.Contents()) + PagesOf(Unread(freeDb, pglast)) }

    constructor (nextPgno: nat, maxpg: nat, freeDb: seq<Record>, dirtyRoom: nat)
      requires RecordsOk(freeDb) && Separate([], freeDb) && InRange([], freeDb)
      ensures Valid() && fresh(head) && fresh(head.buf) && Free() == PagesOf(freeDb)
      ensures this.nextPgno == nextPgno && this.maxpg == maxpg && pglast == 0 && loose == []
    {
      head := new Idl(0);
      have, pglast, pgoldest, loose := false, 0, 0, [];
      this.nextPgno, this.maxpg, this.freeDb, this.dirtyRoom := nextPgno, maxpg, freeDb, dirtyRoom;
      new;
      SkipIs(freeDb, 0, 0);
      assert Unread(freeDb, 0) == freeDb;
    }

    /** Read the next record and merge it into the head. */
    method Fetch()
      requires Valid() && Unread(freeDb, pglast) != []
      modifies this`head, this`have, this`pglast, head, head.buf
      ensures Valid() && have && (head == old(head) || fresh(head)) && (head.buf == old(head.buf) || fresh(head.buf))
      ensures Free() == old(Free()) && pglast == old(Unread(freeDb, pglast)[0].id)
      ensures Unread(freeDb, pglast) == old(Unread(freeDb, pglast))[1..]
      ensures |head.Contents()| == old(|head.Contents()| + |Unread(freeDb, pglast)[0].pages|)
      ensures ToSet(head.Contents()) == old(ToSet(head.Contents()) + ToSet(Unread(freeDb, pglast)[0].pages))
    {
      hide RecordsOk, Separate, InRange, Strictly, PagesOf, ToSet;
      ghost var s := head.Contents();
      var k := Skip(freeDb, pglast);
      var rec := freeDb[k];
      RecordInRange(freeDb, pglast, s);
      MakeRoom(|rec.pages|);
      MergeIn(rec.pages);
      Fetched(freeDb, pglast, k, s, head.Contents());
      pglast := rec.id;
    }

    /** mdb_midl_alloc or mdb_midl_need. */
    method MakeRoom(n: nat)
      requires head.Valid() && (!have ==> head.Contents() == []) && |head.Contents()| + n <= LIMIT
      modifies this`head, this`have, head, head.buf
      ensures head.Valid() && have && (head == old(head) || fresh(head)) && (head.buf == old(head.buf) || fresh(head.buf))
      ensures head.Contents() == old(head.Contents()) && |head.Contents()| + n <= head.Room()
    {
      if !have {
        head := new Idl(n);
        have := true;
      } else {
        head.Need(n);
      }
    }

    /** Everything that the search may change leaves the free pages the same; records are read in order,
      * and only those older than every reader. */
    ghost predicate Searched(free: set<nat>, last0: nat, oldest0: nat, scanned: nat)
      reads this, head, head.buf
    {
      && Valid() && Free() == free && (pgoldest == oldest0 || pgoldest == scanned)
      && last0 <= pglast && (last0 < pglast ==> ReadUpTo(freeDb, pglast) && (pglast < oldest0 || (pgoldest == scanned && pglast < scanned)))
    }

    /** Use the oldest reader last found; if that does not allow a record up to `last`, look again, once. */
    method TooRecent(last: nat, scanned: nat, foundOld0: bool) returns (stop: bool, foundOld: bool)
      requires foundOld0 ==> pgoldest == scanned
      modifies this`pgoldest
      ensures stop <==> pgoldest <= last
      ensures stop ==> pgoldest == scanned
      ensures (pgoldest == old(pgoldest) && foundOld == foundOld0) || (pgoldest == scanned && foundOld)
      ensures foundOld ==> pgoldest == scanned
    {
      foundOld := foundOld0;
      if pgoldest <= last && !foundOld { pgoldest, foundOld := scanned, true; }
      stop := pgoldest <= last;
    }

    /** Read one more record, if there is one and it is not too recent. */
    method Advance(scanned: nat, foundOld0: bool) returns (more: bool, foundOld: bool)
      requires Valid() && (foundOld0 ==> pgoldest == scanned)
      modifies this`head, this`have, this`pglast, this`pgoldest, head, head.buf
      ensures Valid() && (head == old(head) || fresh(head)) && (head.buf == old(head.buf) || fresh(head.buf))
      ensures Free() == old(Free()) && (pgoldest == old(pgoldest) || pgoldest == scanned)
      ensures foundOld ==> pgoldest == scanned
      ensures more ==> |Unread(freeDb, pglast)| < old(|Unread(freeDb, pglast)|) && old(pglast) < pglast < pgoldest
      ensures more ==> ReadUpTo(freeDb, pglast) && old(Unread(freeDb, pglast)) != []
      ensures more ==> pglast == old(Unread(freeDb, pglast)[0].id) && Unread(freeDb, pglast) == old(Unread(freeDb, pglast))[1..]
      ensures more ==> |head.Contents()| == old(|head.Contents()| + |Unread(freeDb, pglast)[0].pages|)
      ensures more ==> ToSet(head.Contents()) == old(ToSet(head.Contents()) + ToSet(Unread(freeDb, pglast)[0].pages))
      ensures !more ==> pglast == old(pglast) && head == old(head) && head.Contents() == old(head.Contents())
      ensures !more ==> forall r :: r in Unread(freeDb, pglast) ==> r.id >= pgoldest && r.id >= scanned
    {
      hide RecordsOk, Separate, InRange, Strictly, PagesOf, Skip, ToSet;
      UnreadFrom(freeDb, pglast);
      var stop;
      stop, foundOld := TooRecent(pglast + 1, scanned, foundOld0);
      if stop { return false, foundOld; }
      var k := Skip(freeDb, pglast);
      if k == |freeDb| { return false, foundOld; }
      stop, foundOld := TooRecent(freeDb[k].id, scanned, foundOld);
      if stop { return false, foundOld; }
      Fetch();
      more := true;
    }

    /** What the loop has done when n of the unread records rs have been read: h was in the head. */
    ghost predicate HasRead(h: seq<nat>, rs: seq<Record>, n: nat, scanned: nat, before: bool)
      reads this, head, head.buf
      requires head.Valid()
    {
      && n <= |rs| && Unread(freeDb, pglast) == rs[n..]
      && |head.Contents()| == |h| + Count(rs[..n]) && ToSet(head.Contents()) == ToSet(h) + PagesOf(rs[..n])
      && (before ==> forall i :: 0 <= i < n ==> rs[i].id < scanned)
    }

    /** Search a list that is long enough; a search in vain counts. */
    method Search(num: nat, retry0: int) returns (i: nat, retry: int)
      requires Valid() && num > 0
      ensures i > 0 ==> i <= |head.Contents()| && RunAt(head.Contents(), i - 1, num)
      ensures i > 0 ==> forall j :: i <= j < |head.Contents()| ==> !RunAt(head.Contents(), j, num)
      ensures (i > 0 <==> HasRun(head.Contents(), num)) && (i > 0 <==> RunIn(ToSet(head.Contents()), num))
      ensures retry == retry0 - if i == 0 && |head.Contents()| >= num then 1 else 0
    {
      hide RecordsOk, Separate, InRange, Strictly, PagesOf, Unread, ToSet, RunIn, Count, RunAt, HasRun;
      TooShort(head.Contents(), num);
      RunMeans(head.Contents(), num);
      i, retry := 0, retry0;
      if head.buf[1] >= num {
        i := FindRun(head.buf, 1, num);
        if i == 0 { retry := retry - 1; }
      }
    }

    /** The loop of mdb_page_alloc: the place of the lowest run of num pages, or 0 if there is none in what
      * may be read.  `scanned` is what mdb_find_oldest returns.  Unless me_pgoldest was above that, the loop
      * finds a run if and only if there is one in what may be read before it gives up. */
    method FindPages(num: nat, scanned: nat) returns (i: nat, gaveUp: bool)
      requires Valid() && num > 0
      modifies this`head, this`have, this`pglast, this`pgoldest, head, head.buf
      ensures (head == old(head) || fresh(head)) && (head.buf == old(head.buf) || fresh(head.buf))
      ensures Searched(old(Free()), old(pglast), old(pgoldest), scanned)
      ensures i > 0 ==> i <= |head.Contents()| && RunAt(head.Contents(), i - 1, num)
      ensures i > 0 ==> forall j :: i <= j < |head.Contents()| ==> !RunAt(head.Contents(), j, num)
      ensures i == 0 ==> !HasRun(head.Contents(), num)
      ensures i == 0 && !gaveUp ==> forall r :: r in Unread(freeDb, pglast) ==> r.id >= pgoldest && r.id >= scanned
      ensures old(pgoldest) <= scanned ==>
        (i > 0 <==> CanFind(old(head.Contents()), old(Unread(freeDb, pglast)), num, scanned))
    {
      hide RecordsOk, Separate, InRange, Strictly, PagesOf, Skip, RunAt, HasRun, Unread, Searches, ToSet, CanFind, RunIn, Count, Allocator.Free;
      ghost var h, rs, n, before := head.Contents(), Unread(freeDb, pglast), 0, pgoldest <= scanned;
      NoneRead(h, rs);
      var retry: int := num * 60;
      var foundOld, more := false, true;
      gaveUp := false;
      while true
        invariant (head == old(head) || fresh(head)) && (head.buf == old(head.buf) || fresh(head.buf))
        invariant Searched(old(Free()), old(pglast), old(pgoldest), scanned)
        invariant foundOld ==> pgoldest == scanned
        invariant HasRead(h, rs, n, scanned, before)
        invariant 0 <= retry == num * 60 - (if n == 0 then 0 else Searches(|h|, rs, n - 1, num))
        decreases |Unread(freeDb, pglast)|
      {
        SearchNext(|h|, rs, n, num);
        i, retry := Search(num, retry);
        if i > 0 {
          SomethingFound(h, rs, num, scanned, n, before);
          return;
        }
        if retry < 0 {
          NothingFound(h, rs, num, scanned, n);
          gaveUp := true;
          return;
        }
        more, foundOld := ReadNext(h, rs, n, scanned, before, old(Free()), old(pglast), old(pgoldest), foundOld);
        if !more {
          NothingFound(h, rs, num, scanned, n);
          return;
        }
        n := n + 1;
      }
    }

    /** Advance, in terms of the records there were. */
    method ReadNext(ghost h: seq<nat>, ghost rs: seq<Record>, ghost n: nat, scanned: nat, ghost before: bool,
                    ghost free: set<nat>, ghost last0: nat, ghost oldest0: nat, foundOld0: bool) returns (more: bool, foundOld: bool)
      requires Searched(free, last0, oldest0, scanned) && HasRead(h, rs, n, scanned, before) && (before ==> oldest0 <= scanned)
      requires foundOld0 ==> pgoldest == scanned
      modifies this`head, this`have, this`pglast, this`pgoldest, head, head.buf
      ensures (head == old(head) || fresh(head)) && (head.buf == old(head.buf) || fresh(head.buf))
      ensures Searched(free, last0, oldest0, scanned) && (foundOld ==> pgoldest == scanned)
      ensures more ==> n < |rs| && HasRead(h, rs, n + 1, scanned, before) && |Unread(freeDb, pglast)| < old(|Unread(freeDb, pglast)|)
      ensures !more ==> HasRead(h, rs, n, scanned, before) && (n < |rs| ==> rs[n].id >= scanned)
      ensures !more ==> head == old(head) && head.Contents() == old(head.Contents())
      ensures !more ==> forall r :: r in Unread(freeDb, pglast) ==> r.id >= pgoldest && r.id >= scanned
    {
      hide RecordsOk, Separate, InRange, Strictly, PagesOf, Unread, ToSet, Count;
      more, foundOld := Advance(scanned, foundOld0);
      if more { NextRead(rs, n); } else { NoMore(rs, n, scanned); }
    }

    /** mdb_page_alloc.  Pages off the lists are free and leave the lists; the map grows only when no run
      * is left in what may be read, or after num * 60 vain searches. */
    method Alloc(num: nat, scanned: nat) returns (res: Outcome)
      requires Valid() && num > 0
      modifies this, head, head.buf
      ensures Valid() && (head == old(head) || fresh(head)) && (head.buf == old(head.buf) || fresh(head.buf))
      ensures freeDb == old(freeDb) && (pgoldest == old(pgoldest) || pgoldest == scanned)
      ensures old(pglast) <= pglast && (old(pglast) < pglast ==> ReadUpTo(freeDb, pglast))
      ensures old(pglast) < pglast ==> pglast < old(pgoldest) || (pgoldest == scanned && pglast < scanned)
      ensures res.Loose? ==> pglast == old(pglast) && head.Contents() == old(head.Contents())
      ensures res.Loose? <==> num == 1 && old(loose) != []
      ensures res.Loose? ==> old(loose) == [res.pgno] + loose && Free() == old(Free()) && nextPgno == old(nextPgno)
      ensures !res.Loose? ==> loose == old(loose) && (res.TxnFull? <==> old(dirtyRoom) == 0)
      ensures res.Page? ==> dirtyRoom == old(dirtyRoom) - 1
      ensures res.Page? && nextPgno == old(nextPgno) ==>
        Run(res.pgno, num) <= old(Free()) && Free() == old(Free()) - Run(res.pgno, num)
      ensures res.Page? && nextPgno == old(nextPgno) ==> Run(res.pgno, num) !! PagesOf(Unread(freeDb, pglast))
      ensures res.Page? && nextPgno != old(nextPgno) ==> res.pgno == old(nextPgno) && nextPgno == res.pgno + num < maxpg
      ensures (res.Page? && nextPgno != old(nextPgno)) || res.MapFull? ==> Free() == old(Free()) && !HasRun(head.Contents(), num)
      ensures !res.Loose? && !res.TxnFull? && old(pgoldest) <= scanned ==>
        (res.Page? && nextPgno == old(nextPgno) <==> CanFind(old(head.Contents()), old(Unread(freeDb, pglast)), num, scanned))
      ensures res.Page? && nextPgno == old(nextPgno) ==>
        forall pg: nat :: pg < res.pgno ==> !(Run(pg, num) <= ToSet(head.Contents()) + Run(res.pgno, num))
      ensures res.TxnFull? ==> Free() == old(Free())
      ensures res.MapFull? || res.TxnFull? ==> nextPgno == old(nextPgno) && (res.MapFull? ==> nextPgno + num >= maxpg)
    {
      hide RecordsOk, Separate, InRange, Strictly, PagesOf, RunAt, HasRun, Unread, Run, ToSet, ReadUpTo, CanFind, Count, Allocator.Free, Idl.Contents;
      if num == 1 && loose != [] {
        res := Loose(loose[0]);
        loose := loose[1..];
        return;
      }
      if dirtyRoom == 0 { return TxnFull; }
      var i, gaveUp := FindPages(num, scanned);
      if i == 0 {
        if nextPgno + num >= maxpg { return MapFull; }
        res := Page(nextPgno);
        nextPgno := nextPgno + num;
      } else {
        var pgno := TakeRun(i, num);
        res := Page(pgno);
      }
      dirtyRoom := dirtyRoom - 1;
    }

    /** Take the run of num pages that ends at place i off the head. */
    method TakeRun(i: nat, num: nat) returns (pgno: nat)
      requires Valid() && num > 0 && 0 < i <= |head.Contents()| && RunAt(head.Contents(), i - 1, num)
      requires forall j :: i <= j < |head.Contents()| ==> !RunAt(head.Contents(), j, num)
      modifies head.buf
      ensures Valid() && Run(pgno, num) <= old(Free()) && Free() == old(Free()) - Run(pgno, num)
      ensures Run(pgno, num) !! PagesOf(Unread(freeDb, pglast))
      ensures forall pg: nat :: pg < pgno ==> !(Run(pg, num) <= ToSet(head.Contents()) + Run(pgno, num))
    {
      ghost var s, room := head.Contents(), head.buf[0];
      pgno := head.buf[1 + i];
      LowestRun(s, i - 1, num);
      CutRun(head.buf, 1, i, num);
      assert head.buf[0] == room;
      WithoutRunOk(s, i - 1, num);
      SeparateLess(s, Unread(freeDb, pglast), head.Contents());
      SeparatePages(s, Unread(freeDb, pglast));
      assert ToSet(head.Contents()) + Run(pgno, num) == ToSet(s);
    }

    /** The part of mdb_ovpage_free that gives pages of this transaction back to me_pghead. */
    method PutBack(pg: nat, n: nat)
      requires Valid() && have && Run(pg, n) !! Free() && |head.Contents()| + Count(Unread(freeDb, pglast)) + n <= LIMIT
      modifies head, head.buf
      ensures Valid() && (head.buf == old(head.buf) || fresh(head.buf))
      ensures Free() == old(Free()) + Run(pg, n)
    {
      ghost var s := head.Contents();
      head.Need(n);
      ghost var room := head.buf[0];
      PutRun(head.buf, 1, pg, n);
      assert head.buf[0] == room;
      WithRunOk(s, pg, n);
      SeparateMore(s, Unread(freeDb, pglast), head.Contents(), Run(pg, n));
    }

    /** mdb_midl_xmerge with the pages of a record. */
    method MergeIn(pages: seq<nat>)
      requires head.Valid() && |head.Contents()| + |pages| <= head.Room()
      requires Strictly(head.Contents()) && Strictly(pages) && forall id :: id in pages ==> id <= MAXID
      modifies head.buf
      ensures head.Valid() && Descending(head.Contents())
      ensures multiset(head.Contents()) == multiset(old(head.Contents())) + multiset(pages)
    {
      var n := |pages|;
      var idl := new nat[n + 1](i requires 0 <= i <= n => if i == 0 then n else pages[i - 1]);
      assert Ids(idl, 0) == pages;
      ghost var room := head.buf[0];
      XMerge(head.buf, 1, idl, 0);
      assert head.buf[0] == room;
    }
  }

  lemma RecordInRange(db: seq<Record>, last: nat, head: seq<nat>)
    requires RecordsOk(db) && InRange(head, Unread(db, last)) && Unread(db, last) != []
    ensures Skip(db, last) < |db| && Unread(db, last)[0] == db[Skip(db, last)] && Strictly(db[Skip(db, last)].pages)
    ensures |head| + |db[Skip(db, last)].pages| <= LIMIT
    ensures forall id :: id in db[Skip(db, last)].pages ==> id <= MAXID
  {
    assert Unread(db, last)[0] in Unread(db, last);
  }

  lemma NoneRead(h: seq<nat>, rs: seq<Record>)
    ensures rs[0..] == rs && Count(rs[..0]) == 0 && ToSet(h) + PagesOf(rs[..0]) == ToSet(h)
  {
  }

  lemma NextRead(rs: seq<Record>, n: nat)
    requires n < |rs|
    ensures rs[n..][0] == rs[n] && rs[n..][1..] == rs[n + 1..]
    ensures Count(rs[..n + 1]) == Count(rs[..n]) + |rs[n].pages| && PagesOf(rs[..n + 1]) == PagesOf(rs[..n]) + ToSet(rs[n].pages)
  {
    CountNext(rs, n);
    PagesNext(rs, n);
  }

  lemma NoMore(rs: seq<Record>, n: nat, scanned: nat)
    requires n <= |rs| && forall r :: r in rs[n..] ==> r.id >= scanned
    ensures n < |rs| ==> rs[n].id >= scanned
  {
    if n < |rs| { assert rs[n..][0] in rs[n..]; }
  }

  lemma SearchNext(len: nat, rs: seq<Record>, n: nat, num: nat)
    requires n <= |rs|
    ensures Searches(len, rs, n, num) ==
      (if n == 0 then 0 else Searches(len, rs, n - 1, num)) + (if len + Count(rs[..n]) >= num then 1 else 0)
  {
  }

  lemma RunMeans(s: seq<nat>, num: nat)
    requires Strictly(s) && num > 0
    ensures HasRun(s, num) <==> RunIn(ToSet(s), num)
  {
    HasRunMeans(s, num);
  }

  lemma SomethingFound(head: seq<nat>, rs: seq<Record>, num: nat, scanned: nat, n: nat, before: bool)
    requires n <= |rs| && (before ==> forall i :: 0 <= i < n ==> rs[i].id < scanned)
    requires RunIn(ToSet(head) + PagesOf(rs[..n]), num) && (n > 0 ==> Searches(|head|, rs, n - 1, num) <= num * 60)
    ensures before ==> CanFind(head, rs, num, scanned)
  {
    if before { assert FoundWith(head, rs, num, scanned, n); }
  }

  /** The run that ends furthest right is the lowest one. */
  lemma LowestRun(s: seq<nat>, i: nat, num: nat)
    requires Strictly(s) && num > 0 && i < |s| && RunAt(s, i, num) && forall j :: i < j < |s| ==> !RunAt(s, j, num)
    ensures Run(s[i], num) <= ToSet(s)
    ensures forall pg: nat :: pg < s[i] ==> !(Run(pg, num) <= ToSet(s))
  {
    RunIsContiguous(s, i, num);
    forall pg: nat | pg < s[i] ensures !(Run(pg, num) <= ToSet(s)) {
      if Run(pg, num) <= ToSet(s) {
        assert pg in Run(pg, num);
        var j :| 0 <= j < |s| && s[j] == pg;
        RunBelow(s, j, num);
      }
    }
  }

  lemma TooShort(s: seq<nat>, n: nat)
    ensures |s| < n ==> !HasRun(s, n)
  {
  }

  /** Unread records are not below the first of them. */
  lemma UnreadFrom(db: seq<Record>, last: nat)
    requires RecordsOk(db)
    ensures Unread(db, last) == [] <==> Skip(db, last) == |db|
    ensures Unread(db, last) != [] ==> Unread(db, last)[0] == db[Skip(db, last)] && db[Skip(db, last)].id > last
    ensures forall r :: r in Unread(db, last) ==> r.id > last && Unread(db, last)[0].id <= r.id
  {
  }

  /** The first unread record has been merged into the head. */
  lemma Fetched(db: seq<Record>, last: nat, k: nat, s: seq<nat>, t: seq<nat>)
    requires RecordsOk(db) && k == Skip(db, last) < |db| && Strictly(s) && Separate(s, Unread(db, last))
    requires InRange(s, Unread(db, last))
    requires Descending(t) && multiset(t) == multiset(s) + multiset(db[k].pages)
    ensures Strictly(t) && Separate(t, Unread(db, db[k].id)) && InRange(t, Unread(db, db[k].id))
    ensures |t| == |s| + |db[k].pages| && ToSet(t) == ToSet(s) + ToSet(db[k].pages)
    ensures Unread(db, db[k].id) == Unread(db, last)[1..] && Unread(db, last)[0] == db[k]
    ensures ToSet(t) + PagesOf(Unread(db, db[k].id)) == ToSet(s) + PagesOf(Unread(db, last))
  {
    var rs := Unread(db, last);
    SkipIs(db, db[k].id, k + 1);
    assert rs[0] == db[k] && rs[1..] == db[k + 1..];
    MergedStrictly(s, db[k].pages, t);
    SeparateRest(s, rs, t);
    PagesOfFirst(rs);
    assert |multiset(t)| == |t| && |multiset(s) + multiset(db[k].pages)| == |s| + |db[k].pages|;
  }
}
