/** mdb_page_alloc, as PageAlloc has it on lists, does what the write transaction of Mvcc may do: it reads
  * records in order, older than the oldest reader, and then takes a loose page, a free run or new pages. */
module AllocSteps {
  import opened Mvcc
  import A = PageAlloc
  import M = MidlGrow
  import R = PageRuns

  function AsRecords(rs: seq<A.Record>): Records { if rs == [] then map[] else AsRecords(rs[1..])[rs[0].id := R.ToSet(rs[0].pages)] }

  /** The allocator holds the page lists of w. */
  ghost predicate Shows(w: Work, a: A.Allocator)
    requires a.head.Valid()
    reads a, a.head, a.head.buf
  {
    && w.pghead == R.ToSet(a.head.Contents()) && w.recs == AsRecords(A.Unread(a.freeDb, a.pglast))
    && w.pglast == a.pglast && w.next == a.nextPgno
    && (forall q :: q in w.loose <==> q in a.loose) && forall i, j :: 0 <= i < j < |a.loose| ==> a.loose[i] != a.loose[j]
  }

  /** Steps of a write transaction while `oldest` is the oldest reader it knows of. */
  ghost predicate Steps(w: Work, oldest: nat, steps: seq<WorkStep>, w': Work)
    decreases steps
  {
    if steps == [] then w' == w
    else WorkCan(w, oldest, steps[0]) && Steps(DoWork(w, oldest, steps[0]), oldest, steps[1..], w')
  }

  function Reads(rs: seq<A.Record>): (steps: seq<WorkStep>)
    ensures |steps| == |rs| && forall i :: 0 <= i < |rs| ==> steps[i] == Fetch(rs[i].id)
  { seq(|rs|, i requires 0 <= i < |rs| => Fetch(rs[i].id)) }

  predicate Ascending(rs: seq<A.Record>) { forall i, j :: 0 <= i < j < |rs| ==> rs[i].id < rs[j].id }

  lemma {:induction false} KeysOf(rs: seq<A.Record>, k: nat)
    ensures k in AsRecords(rs) <==> exists i :: 0 <= i < |rs| && rs[i].id == k
  {
    if rs != [] {
      KeysOf(rs[1..], k);
      if k in AsRecords(rs[1..]) {
        var i :| 0 <= i < |rs[1..]| && rs[1..][i].id == k;
        assert rs[i + 1].id == k;
      }
      if i :| 0 <= i < |rs| && rs[i].id == k {
        assert i > 0 ==> rs[1..][i - 1].id == k;
      }
    }
  }

  /** The first record is the one with the lowest key. */
  lemma FirstRecord(rs: seq<A.Record>)
    requires rs != [] && Ascending(rs)
    ensures var recs := AsRecords(rs);
      rs[0].id in recs && recs[rs[0].id] == R.ToSet(rs[0].pages) && (forall k :: k in recs ==> rs[0].id <= k)
      && Without(recs, rs[0].id) == AsRecords(rs[1..])
  {
    var recs, rest := AsRecords(rs), AsRecords(rs[1..]);
    forall k | k in recs ensures rs[0].id <= k { KeysOf(rs, k); }
    KeysOf(rs[1..], rs[0].id);
    assert rs[0].id !in rest;
    assert Without(recs, rs[0].id) == rest;
  }

  /** What is left after n records have been read. */
  function AfterReads(w: Work, rs: seq<A.Record>, n: nat): Work
    requires n <= |rs|
  {
    w.(recs := AsRecords(rs[n..]), pghead := w.pghead + A.PagesOf(rs[..n]), pglast := if n == 0 then w.pglast else rs[n - 1].id)
  }

  lemma AfterFirst(w: Work, rs: seq<A.Record>, n: nat, oldest: nat)
    requires w.recs == AsRecords(rs) && Ascending(rs) && 0 < n <= |rs| && rs[0].id < oldest
    ensures WorkCan(w, oldest, Fetch(rs[0].id))
    ensures var w1 := DoWork(w, oldest, Fetch(rs[0].id));
      w1.recs == AsRecords(rs[1..]) && AfterReads(w1, rs[1..], n - 1) == AfterReads(w, rs, n)
  {
    hide AsRecords, A.PagesOf, R.ToSet, Without;
    FirstRecord(rs);
    assert rs[1..][n - 1..] == rs[n..] && rs[1..][..n - 1] == rs[..n][1..] && rs[..n][0] == rs[0];
    A.PagesOfFirst(rs[..n]);
    NoPages();
    assert n == 1 ==> rs[..n][1..] == [];
  }

  lemma NoPages()
    ensures A.PagesOf([]) == {}
  {
  }

  lemma ReadsFirst(rs: seq<A.Record>, n: nat)
    requires 0 < n <= |rs|
    ensures Reads(rs[..n]) != [] && Reads(rs[..n])[0] == Fetch(rs[0].id) && Reads(rs[..n])[1..] == Reads(rs[1..][..n - 1])
  {
    assert rs[1..][..n - 1] == rs[..n][1..];
  }

  /** Records in order, each older than all readers, can be fetched one after the other. */
  lemma {:induction false} ReadsAreSteps(w: Work, rs: seq<A.Record>, n: nat, oldest: nat)
    requires w.recs == AsRecords(rs) && Ascending(rs) && n <= |rs| && forall i :: 0 <= i < n ==> rs[i].id < oldest
    ensures Steps(w, oldest, Reads(rs[..n]), AfterReads(w, rs, n))
    decreases n
  {
    hide AsRecords, A.PagesOf, WorkCan, DoWork, Reads;
    hide AfterReads;
    if n == 0 {
      NoReads(w, rs, oldest);
    } else {
      AfterFirst(w, rs, n, oldest);
      ReadsFirst(rs, n);
      ReadsAreSteps(DoWork(w, oldest, Fetch(rs[0].id)), rs[1..], n - 1, oldest);
    }
  }

  lemma NoReads(w: Work, rs: seq<A.Record>, oldest: nat)
    requires w.recs == AsRecords(rs)
    ensures Steps(w, oldest, Reads(rs[..0]), AfterReads(w, rs, 0))
  {
    hide AsRecords, A.PagesOf, WorkCan, DoWork;
    NoPages();
    assert rs[0..] == rs && rs[..0] == [];
    assert AfterReads(w, rs, 0) == w;
  }

  /** How many of the first n records are below b. */
  function Below(rs: seq<A.Record>, n: nat, b: nat): (m: nat)
    requires n <= |rs| && Ascending(rs)
    ensures m <= n && (forall i :: 0 <= i < m ==> rs[i].id < b) && forall i :: m <= i < n ==> rs[i].id >= b
  { if n == 0 || rs[n - 1].id < b then n else Below(rs, n - 1, b) }

  lemma SkipTo(db: seq<A.Record>, last0: nat, j: nat)
    requires A.RecordsOk(db) && j < |db| && last0 < db[j].id
    ensures A.Skip(db, last0) <= j && A.Skip(db, db[j].id) == j + 1
  {
    A.SkipIs(db, db[j].id, j + 1);
  }

  lemma UnreadOk(db: seq<A.Record>, last: nat)
    requires A.RecordsOk(db)
    ensures Ascending(A.Unread(db, last))
  {
  }

  /** The records that have been read between two values of me_pglast. */
  lemma ReadBetween(db: seq<A.Record>, last0: nat, last1: nat) returns (n: nat)
    requires A.RecordsOk(db) && last0 <= last1 && (last0 < last1 ==> A.ReadUpTo(db, last1))
    ensures n <= |A.Unread(db, last0)| && A.Unread(db, last1) == A.Unread(db, last0)[n..] && (n == 0 <==> last0 == last1)
    ensures n > 0 ==> A.Unread(db, last0)[n - 1].id == last1
  {
    hide A.RecordsOk;
    n := 0;
    if last0 < last1 {
      var j :| 0 <= j < |db| && db[j].id == last1;
      SkipTo(db, last0, j);
      n := j + 1 - A.Skip(db, last0);
    }
  }

  lemma {:induction false} PagesSplit(rs: seq<A.Record>, n: nat)
    requires n <= |rs|
    ensures A.PagesOf(rs) == A.PagesOf(rs[..n]) + A.PagesOf(rs[n..])
  {
    assert rs == rs[..n] + rs[n..];
  }

  lemma ReadApart(head: seq<nat>, rs: seq<A.Record>, n: nat)
    requires A.Separate(head, rs) && n <= |rs|
    ensures A.PagesOf(rs[..n]) !! A.PagesOf(rs[n..]) && R.ToSet(head) !! A.PagesOf(rs)
  {
    A.SeparatePages(head, rs);
    forall r, t, q | r in rs[..n] && t in rs[n..] && q in r.pages ensures q !in t.pages {
      TwoApart(head, rs, n, r, t, q);
    }
  }

  lemma TwoApart(head: seq<nat>, rs: seq<A.Record>, n: nat, r: A.Record, t: A.Record, q: nat)
    requires A.Separate(head, rs) && n <= |rs| && r in rs[..n] && t in rs[n..] && q in r.pages
    ensures q !in t.pages
  {
    var i :| 0 <= i < n && rs[i] == r;
    var j :| n <= j < |rs| && rs[j] == t;
    assert R.ToSet(rs[i].pages) !! R.ToSet(rs[j].pages) && q in R.ToSet(r.pages);
    assert q !in R.ToSet(t.pages);
  }

  predicate OnlyFetches(steps: seq<WorkStep>) { forall i :: 0 <= i < |steps| ==> steps[i].Fetch? }

  /** The lists after a search: pages of the records read are in me_pghead. */
  ghost predicate ReadInto(w: Work, w2: Work, head: seq<nat>, db: seq<A.Record>, last0: nat, last1: nat, read: set<nat>) {
    && w2 == w.(recs := AsRecords(A.Unread(db, last1)), pghead := w.pghead + read, pglast := last1)
    && A.PagesOf(A.Unread(db, last0)) == read + A.PagesOf(A.Unread(db, last1))
    && read !! A.PagesOf(A.Unread(db, last1)) && R.ToSet(head) !! A.PagesOf(A.Unread(db, last0))
  }

  /** What the search reads are two stretches of fetches: up to the oldest reader known before, and, if it
    * went on, up to the one found anew. */
  lemma SearchIsSteps(w: Work, head: seq<nat>, db: seq<A.Record>, last0: nat, last1: nat, old0: nat, scanned: nat)
    returns (w1: Work, w2: Work, pre: seq<WorkStep>, post: seq<WorkStep>, read: set<nat>)
    requires A.RecordsOk(db) && A.Separate(head, A.Unread(db, last0)) && w.recs == AsRecords(A.Unread(db, last0)) && w.pglast == last0
    requires last0 <= last1 && (last0 < last1 ==> A.ReadUpTo(db, last1) && (last1 < old0 || last1 < scanned))
    ensures Steps(w, old0, pre, w1) && Steps(w1, scanned, post, w2) && OnlyFetches(pre) && OnlyFetches(post)
    ensures post != [] ==> old0 <= last1 && last0 < last1
    ensures last1 == last0 ==> pre == [] == post
    ensures ReadInto(w, w2, head, db, last0, last1, read)
  {
    hide AsRecords, Steps, A.Separate, A.RecordsOk, A.Unread, A.PagesOf, R.ToSet, A.ReadUpTo, Reads, AfterReads, Ascending;
    var rs := A.Unread(db, last0);
    UnreadOk(db, last0);
    Earlier(rs);
    var n := ReadBetween(db, last0, last1);
    var m := Below(rs, n, old0);
    pre, post, read := Reads(rs[..m]), Reads(rs[m..][..n - m]), A.PagesOf(rs[..n]);
    w1, w2 := AfterReads(w, rs, m), AfterReads(AfterReads(w, rs, m), rs[m..], n - m);
    ReadsAreSteps(w, rs, m, old0);
    AfterAll(w, rs, m, if m == 0 then w.pglast else rs[m - 1].id);
    ReadsAreSteps(w1, rs[m..], n - m, scanned);
    TwoReads(w, rs, m, n);
    PagesSplit(rs, n);
    ReadApart(head, rs, n);
    AfterAll(w, rs, n, last1);
  }

  lemma Earlier(rs: seq<A.Record>)
    requires Ascending(rs)
    ensures forall i, j :: 0 <= i < j < |rs| ==> rs[i].id < rs[j].id
    ensures forall m :: 0 <= m <= |rs| ==> Ascending(rs[m..])
  {
  }

  lemma AfterAll(w: Work, rs: seq<A.Record>, n: nat, last: nat)
    requires n <= |rs| && last == if n == 0 then w.pglast else rs[n - 1].id
    ensures AfterReads(w, rs, n) == w.(recs := AsRecords(rs[n..]), pghead := w.pghead + A.PagesOf(rs[..n]), pglast := last)
  {
  }

  lemma TwoReads(w: Work, rs: seq<A.Record>, m: nat, n: nat)
    requires m <= n <= |rs|
    ensures AfterReads(AfterReads(w, rs, m), rs[m..], n - m) == AfterReads(w, rs, n)
  {
    hide AsRecords, A.PagesOf;
    assert rs[m..][n - m..] == rs[n..];
    PagesSplit(rs[..n], m);
    assert rs[..n][..m] == rs[..m] && rs[..n][m..] == rs[m..][..n - m];
  }

  lemma RunsAlike(q: nat, n: nat)
    ensures Run(q, n) == R.Run(q, n)
  {
  }

  lemma LooseTaken(before: seq<nat>, q: nat, after: seq<nat>)
    requires before == [q] + after && forall i, j :: 0 <= i < j < |before| ==> before[i] != before[j]
    ensures forall p :: p in after <==> p in before && p != q
    ensures forall i, j :: 0 <= i < j < |after| ==> after[i] != after[j]
  {
    forall i | 0 <= i < |after| ensures after[i] != q { assert before[0] != before[i + 1]; }
    forall i, j | 0 <= i < j < |after| ensures after[i] != after[j] { assert before[i + 1] != before[j + 1]; }
  }

  /** What the step after the search is. */
  function StepOf(res: A.Outcome, grew: bool, c: seq<int>): WorkStep
    requires (res.Loose? || res.Page?) && c != []
  { if res.Loose? then AllocLoose(res.pgno, c[0]) else if grew then AllocNew(c) else AllocRun(res.pgno, c) }

  /** mdb_page_alloc is fetches and one allocating step, or fetches alone if it fails. */
  method AllocPages(a: A.Allocator, num: nat, scanned: nat, ghost w: Work, ghost c: seq<int>)
    returns (res: A.Outcome, ghost w1: Work, ghost w2: Work, ghost pre: seq<WorkStep>, ghost post: seq<WorkStep>)
    requires a.Valid() && num > 0 && |c| == num && Shows(w, a)
    modifies a, a.head, a.head.buf
    ensures a.Valid() && OnlyFetches(pre) && OnlyFetches(post)
    ensures Steps(w, old(a.pgoldest), pre, w1) && Steps(w1, scanned, post, w2) && (post != [] ==> a.pgoldest == scanned)
    ensures res.MapFull? || res.TxnFull? ==> Shows(w2, a)
    ensures res.Loose? || res.Page? ==> var step := StepOf(res, a.nextPgno != old(a.nextPgno), c);
      WorkCan(w2, a.pgoldest, step) && Shows(DoWork(w2, a.pgoldest, step), a)
  {
    hide AsRecords, Steps, A.Separate, A.RecordsOk, A.Unread, A.InRange, A.PagesOf, R.Run, Run, A.ReadUpTo, R.HasRun, M.Idl.Contents, M.Idl.Valid, R.ToSet;
    ghost var head0, last0, old0, loose0 := a.head.Contents(), a.pglast, a.pgoldest, a.loose;
    res := a.Alloc(num, scanned);
    ghost var read;
    w1, w2, pre, post, read := SearchIsSteps(w, head0, a.freeDb, last0, a.pglast, old0, scanned);
    A.SeparatePages(a.head.Contents(), A.Unread(a.freeDb, a.pglast));
    if res.Page? { RunsAlike(res.pgno, num); }
    if res.Loose? { LooseTaken(loose0, res.pgno, a.loose); }
  }

  /** Giving a run of overflow pages back to me_pghead is FreeOverflow. */
  method GiveBack(a: A.Allocator, pg: nat, n: nat, oldest: nat, ghost w: Work)
    requires a.Valid() && a.have && Shows(w, a) && WorkCan(w, oldest, FreeOverflow(pg, n)) && R.Run(pg, n) !! a.Free()
    requires |a.head.Contents()| + A.Count(A.Unread(a.freeDb, a.pglast)) + n <= A.LIMIT
    modifies a.head, a.head.buf
    ensures a.Valid() && Shows(DoWork(w, oldest, FreeOverflow(pg, n)), a)
  {
    hide AsRecords, A.Separate, A.RecordsOk, A.Unread, A.InRange, A.PagesOf, R.Run, Run, M.Idl.Contents, M.Idl.Valid, R.ToSet, Drop;
    A.SeparatePages(a.head.Contents(), A.Unread(a.freeDb, a.pglast));
    a.PutBack(pg, n);
    A.SeparatePages(a.head.Contents(), A.Unread(a.freeDb, a.pglast));
    RunsAlike(pg, n);
  }
}
