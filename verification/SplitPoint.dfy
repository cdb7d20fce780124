/** Where mdb_page_split cuts a full page, and that both halves then fit. */
module SplitPoint {

  /** The sum of s[i..j]. */
  function Bytes(s: seq<nat>, i: nat, j: nat): nat
    requires i <= j <= |s|
    decreases j - i
  { if i == j then 0 else Bytes(s, i, j - 1) + s[j - 1] }

  lemma {:induction false} BytesSplit(s: seq<nat>, i: nat, j: nat, k: nat)
    requires i <= j <= k <= |s|
    ensures Bytes(s, i, k) == Bytes(s, i, j) + Bytes(s, j, k)
    decreases k
  {
    if j < k { BytesSplit(s, i, j, k - 1); }
  }

  lemma {:induction false} BytesAlike(s: seq<nat>, i: nat, j: nat, t: seq<nat>, a: nat)
    requires i <= j <= |s| && a + (j - i) <= |t|
    requires s[i..j] == t[a..a + (j - i)]
    ensures Bytes(s, i, j) == Bytes(t, a, a + (j - i))
    decreases j
  {
    if i < j {
      assert s[i..j - 1] == s[i..j][..j - 1 - i] == t[a..a + (j - 1 - i)];
      assert s[j - 1] == s[i..j][j - 1 - i] == t[a + (j - 1 - i)];
      BytesAlike(s, i, j - 1, t, a);
    }
  }

  lemma BytesTake(s: seq<nat>, i: nat)
    requires i <= |s|
    ensures Bytes(s[..i], 0, i) == Bytes(s, 0, i)
  {
    assert s[..i][0..i] == s[0..i];
    BytesAlike(s[..i], 0, i, s, 0);
  }

  lemma BytesDrop(s: seq<nat>, i: nat)
    requires i <= |s|
    ensures Bytes(s[i..], 0, |s| - i) == Bytes(s, i, |s|)
  {
    assert s[i..][0..|s| - i] == s[i..|s|];
    BytesAlike(s[i..], 0, |s| - i, s, i);
  }

  lemma BytesConcat(a: seq<nat>, b: seq<nat>)
    ensures Bytes(a + b, 0, |a| + |b|) == Bytes(a, 0, |a|) + Bytes(b, 0, |b|)
  {
    BytesSplit(a + b, 0, |a|, |a| + |b|);
    BytesTake(a + b, |a|);
    BytesDrop(a + b, |a|);
    assert (a + b)[..|a|] == a && (a + b)[|a|..] == b;
  }

  /** The page to split, with the new node in place: the bytes each node takes, its slot in the
    * pointer array included.  `newindx` is where the new node goes. */
  datatype Page = Page(sizes: seq<nat>, newindx: nat, leaf: bool, pmax: nat) {
    function NKeys(): int { |sizes| - 1 }
    function Half(): int { (NKeys() + 1) / 2 }
    function All(): nat { Bytes(sizes, 0, |sizes|) }
  }

  const HEADER := 10  // node header and slot of a branch node whose key is stripped

  /** What mdb_page_split may rely on: nodes bounded by half a page, an old page that was within
    * bounds, and a new node for which it has no room. */
  ghost predicate NeedsSplit(p: Page) {
    && p.newindx < |p.sizes|
    && (forall i :: 0 <= i < |p.sizes| ==> HEADER <= p.sizes[i] && 2 * p.sizes[i] <= p.pmax)
    && p.All() - p.sizes[p.newindx] <= p.pmax < p.All()
    && (!p.leaf ==> p.newindx > 0)
  }

  /** The split point is searched for only in these cases; otherwise it is the middle. */
  predicate Scanned(p: Page)
    requires p.newindx < |p.sizes|
  { p.NKeys() < 32 || p.sizes[p.newindx] > p.pmax / 16 || p.newindx >= p.NKeys() }

  predicate FromLeft(p: Page) { p.newindx <= p.Half() || p.newindx >= p.NKeys() }

  function LeftEnd(p: Page): int {
    if p.newindx >= p.NKeys() then p.NKeys() else p.Half() + 1 + (if p.leaf then 1 else 0)
  }

  /** The upward search: nodes before i take `psize` bytes; it ends at k - 1 at the latest. */
  function Upward(p: Page, i: nat, k: nat, psize: nat): nat
    requires i < k <= |p.sizes|
    decreases k - i
  {
    var psize' := psize + p.sizes[i];
    if psize' > p.pmax || i == k - 1 then i else Upward(p, i + 1, k, psize')
  }

  /** The downward search: nodes after i take `psize` bytes; it ends at k + 1 at the latest. */
  function Downward(p: Page, i: nat, k: int, psize: nat): nat
    requires -1 <= k < i < |p.sizes|
    decreases i - k
  {
    var psize' := psize + p.sizes[i];
    if psize' > p.pmax || i == k + 1 then i + 1 else Downward(p, i - 1, k, psize')
  }

  function SplitIndex(p: Page): nat
    requires p.newindx < |p.sizes| && |p.sizes| >= 3
  {
    if !Scanned(p) then p.Half()
    else if FromLeft(p) then Upward(p, 0, LeftEnd(p), 0)
    else Downward(p, p.NKeys(), p.Half() - 1, 0)
  }

  /** The loop of mdb_page_split. */
  method FindSplit(p: Page) returns (splitIndx: nat)
    requires p.newindx < |p.sizes| && |p.sizes| >= 3
    ensures splitIndx == SplitIndex(p)
  {
    splitIndx := p.Half();
    if p.NKeys() < 32 || p.sizes[p.newindx] > p.pmax / 16 || p.newindx >= p.NKeys() {
      var psize: nat, i, j, k := 0, 0, 1, 0;
      if p.newindx <= splitIndx || p.newindx >= p.NKeys() {
        k := if p.newindx >= p.NKeys() then p.NKeys() else splitIndx + 1 + (if p.leaf then 1 else 0);
      } else {
        i, j := p.NKeys(), -1;
        k := splitIndx - 1;
      }
      while i != k
        invariant j == 1 ==> 0 <= i < k <= |p.sizes| && SplitIndex(p) == Upward(p, i, k, psize)
        invariant j != 1 ==> j == -1 && -1 <= k < i < |p.sizes| && SplitIndex(p) == Downward(p, i, k, psize)
        invariant psize >= 0
        decreases if j == 1 then k - i else i - k
      {
        psize := psize + p.sizes[i];
        if psize > p.pmax || i == k - j {
          splitIndx := i + (if j < 0 then 1 else 0);
          break;
        }
        i := i + j;
      }
    }
  }

  /** Both halves are nonempty and within bounds; a branch page drops its first key. */
  predicate BothFit(p: Page, s: nat) {
    && 1 <= s < |p.sizes|
    && Bytes(p.sizes, 0, s) <= p.pmax
    && (if p.leaf then Bytes(p.sizes, s, |p.sizes|) <= p.pmax
        else HEADER + Bytes(p.sizes, s + 1, |p.sizes|) <= p.pmax)
  }

  lemma SplitsHaveThreeNodes(p: Page)
    requires NeedsSplit(p)
    ensures |p.sizes| >= 3
  {
    BytesSplit(p.sizes, 0, |p.sizes| - 1, |p.sizes|);
  }

  /** The search stops at the first node that no longer fits, or at its end. */
  lemma {:induction false} UpwardStops(p: Page, i: nat, k: nat, psize: nat)
    requires i < k <= |p.sizes| && psize == Bytes(p.sizes, 0, i) <= p.pmax
    ensures var s := Upward(p, i, k, psize);
      && i <= s < k && Bytes(p.sizes, 0, s) <= p.pmax
      && (Bytes(p.sizes, 0, s + 1) > p.pmax || s == k - 1)
    decreases k - i
  {
    if psize + p.sizes[i] <= p.pmax && i < k - 1 { UpwardStops(p, i + 1, k, psize + p.sizes[i]); }
  }

  lemma {:induction false} DownwardStops(p: Page, i: nat, k: int, psize: nat)
    requires -1 <= k < i < |p.sizes| && psize == Bytes(p.sizes, i + 1, |p.sizes|) <= p.pmax
    ensures var s := Downward(p, i, k, psize);
      && k + 2 <= s <= i + 1 && Bytes(p.sizes, s, |p.sizes|) <= p.pmax
      && (Bytes(p.sizes, s - 1, |p.sizes|) > p.pmax || s == k + 2)
    decreases i - k
  {
    BytesSplit(p.sizes, i, i + 1, |p.sizes|);
    if psize + p.sizes[i] <= p.pmax && i > k + 1 { DownwardStops(p, i - 1, k, psize + p.sizes[i]); }
  }

  /** The bytes on the side away from the new node are old ones. */
  lemma OldPartFits(p: Page, s: nat)
    requires p.newindx < |p.sizes| && s <= |p.sizes|
    ensures p.newindx < s ==> Bytes(p.sizes, s, |p.sizes|) <= p.All() - p.sizes[p.newindx]
    ensures p.newindx >= s ==>
      Bytes(p.sizes, 0, s) + Bytes(p.sizes, p.newindx + 1, |p.sizes|) <= p.All() - p.sizes[p.newindx]
  {
    var n, x := |p.sizes|, p.newindx;
    BytesSplit(p.sizes, 0, x + 1, n);
    if x < s { BytesSplit(p.sizes, x + 1, s, n); } else { BytesSplit(p.sizes, 0, s, x); }
  }

  /** If the first s + 1 nodes are too much for a page, the nodes from s on are not. */
  lemma RestFits(p: Page, s: nat)
    requires NeedsSplit(p) && s < |p.sizes| && Bytes(p.sizes, 0, s + 1) > p.pmax
    ensures Bytes(p.sizes, s, |p.sizes|) <= p.pmax
  {
    BytesSplit(p.sizes, 0, s, |p.sizes|);
  }

  /** Old nodes after s, with the new one at s if anywhere. */
  lemma OldTailFits(p: Page, s: nat)
    requires NeedsSplit(p) && 0 < s < |p.sizes| && p.newindx <= s && (p.leaf ==> p.newindx < s)
    requires Bytes(p.sizes, 0, s) <= p.pmax
    ensures BothFit(p, s)
  {
    OldPartFits(p, s);
    BytesSplit(p.sizes, 0, 1, s);
    assert Bytes(p.sizes, 0, 1) == p.sizes[0];
    BytesSplit(p.sizes, s, s + 1, |p.sizes|);
  }

  lemma NoBytes(s: seq<nat>, i: nat)
    requires i <= |s|
    ensures Bytes(s, i, i) == 0
  {
  }

  lemma FewBytes(s: seq<nat>, i: nat)
    requires i < |s|
    ensures Bytes(s, i, i) == 0 && Bytes(s, i, i + 1) == s[i]
    ensures i + 2 <= |s| ==> Bytes(s, i, i + 2) == s[i] + s[i + 1]
  {
  }

  lemma UpwardFits(p: Page)
    requires NeedsSplit(p) && |p.sizes| >= 3 && FromLeft(p)
    ensures BothFit(p, Upward(p, 0, LeftEnd(p), 0))
  {
    hide Upward, Bytes;
    FewBytes(p.sizes, 0);
    UpwardStops(p, 0, LeftEnd(p), 0);
    var s := Upward(p, 0, LeftEnd(p), 0);
    var n := |p.sizes|;
    BytesSplit(p.sizes, s, s + 1, n);
    FewBytes(p.sizes, s);
    if Bytes(p.sizes, 0, s + 1) > p.pmax {
      RestFits(p, s);
    } else if p.newindx >= p.NKeys() {
      FewBytes(p.sizes, s + 1);
    } else {
      OldTailFits(p, s);
    }
  }

  lemma DownwardFits(p: Page)
    requires NeedsSplit(p) && |p.sizes| >= 3 && !FromLeft(p)
    ensures BothFit(p, Downward(p, p.NKeys(), p.Half() - 1, 0))
  {
    hide Downward, Bytes;
    var n := |p.sizes|;
    NoBytes(p.sizes, n);
    FewBytes(p.sizes, n - 1);
    BytesSplit(p.sizes, n - 1, n, n);
    DownwardStops(p, p.NKeys(), p.Half() - 1, 0);
    var s := Downward(p, p.NKeys(), p.Half() - 1, 0);
    assert s < n;
    FewBytes(p.sizes, s);
    BytesSplit(p.sizes, s, s + 1, n);
    FewBytes(p.sizes, s - 1);
    BytesSplit(p.sizes, 0, s - 1, s);
    BytesSplit(p.sizes, 0, s - 1, n);
    OldPartFits(p, s);
  }

  /** Whenever the split point is searched for, both pages are nonempty and hold their nodes. */
  lemma ScannedSplitFits(p: Page)
    requires NeedsSplit(p) && Scanned(p)
    ensures |p.sizes| >= 3 && BothFit(p, SplitIndex(p))
  {
    SplitsHaveThreeNodes(p);
    if FromLeft(p) { UpwardFits(p); } else { DownwardFits(p); }
  }

  /** The half of a page cut in the middle that takes the new node is not too large. */
  predicate HalfFits(p: Page) {
    if p.newindx < p.Half() then Bytes(p.sizes, 0, p.Half()) <= p.pmax
    else if p.leaf then Bytes(p.sizes, p.Half(), |p.sizes|) <= p.pmax
    else p.Half() < |p.sizes| && HEADER + Bytes(p.sizes, p.Half() + 1, |p.sizes|) <= p.pmax
  }

  /** Without the search the page is cut in the middle.  Then only the half that takes the new node
    * can be too large: the split succeeds if and only if that half fits. */
  lemma UnscannedSplitFits(p: Page)
    requires NeedsSplit(p) && !Scanned(p)
    ensures |p.sizes| >= 3 && (BothFit(p, SplitIndex(p)) <==> HalfFits(p))
  {
    var n, h := |p.sizes|, p.Half();
    OldPartFits(p, h);
    BytesSplit(p.sizes, h, h + 1, n);
    FewBytes(p.sizes, h);
    hide Bytes;
  }

  /** A page can be split: the split point is searched for, or the half with the new node fits. */
  predicate Splittable(p: Page) { p.newindx < |p.sizes| && (Scanned(p) || HalfFits(p)) }

  /** A split succeeds if and only if the page can be split. */
  lemma SplitSucceeds(p: Page)
    requires NeedsSplit(p)
    ensures |p.sizes| >= 3 && (BothFit(p, SplitIndex(p)) <==> Splittable(p))
  {
    hide NeedsSplit, Scanned, HalfFits, BothFit, SplitIndex;
    InPage(p);
    if Scanned(p) { ScannedSplitFits(p); } else { UnscannedSplitFits(p); }
  }

  lemma InPage(p: Page)
    requires NeedsSplit(p)
    ensures p.newindx < |p.sizes|
  {
  }

  lemma {:induction false} BytesOfEqual(s: seq<nat>, i: nat, j: nat, c: nat)
    requires i <= j <= |s| && forall x :: i <= x < j ==> s[x] == c
    ensures Bytes(s, i, j) == (j - i) * c
    decreases j
  {
    if i < j { BytesOfEqual(s, i, j - 1, c); }
  }

  /** A leaf of 16 small and 16 large nodes; the new node goes among the large ones. */
  const UNLUCKY := Page(seq(33, i => if i < 16 then 12 else if i == 20 then 254 else 242), 20, true, 4080)

  lemma UnluckyBytes(s: seq<nat>)
    requires |s| == 33 && forall i :: 0 <= i < 33 ==> s[i] == if i < 16 then 12 else if i == 20 then 254 else 242
    ensures Bytes(s, 0, 33) == 4318 && Bytes(s, 16, 33) == 4126
  {
    BytesOfEqual(s, 0, 16, 12);
    BytesOfEqual(s, 16, 20, 242);
    BytesOfEqual(s, 20, 21, 254);
    BytesOfEqual(s, 21, 33, 242);
    BytesSplit(s, 0, 16, 33);
    BytesSplit(s, 16, 20, 33);
    BytesSplit(s, 20, 21, 33);
    hide Bytes;
  }

  /** Cut in the middle, this page does not fit: the put fails with MDB_PAGE_FULL. */
  lemma UnluckySplit()
    ensures NeedsSplit(UNLUCKY) && !Scanned(UNLUCKY) && !BothFit(UNLUCKY, SplitIndex(UNLUCKY))
  {
    UnluckyBytes(UNLUCKY.sizes);
  }
}
