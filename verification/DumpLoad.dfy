/** The text format of mdb_dump and mdb_load: one line for each key and each data item. */
module DumpLoad {

  type byte = n: nat | n < 256

  const NL: byte := 10
  const SPACE: byte := 32
  const BACKSLASH: byte := 92

  datatype Option<+T> = None | Some(value: T)

  // ----- Characters -----

  predicate IsPrint(c: byte) { 32 <= c <= 126 }
  predicate IsXDigit(c: byte) { 48 <= c <= 57 || 65 <= c <= 70 || 97 <= c <= 102 }

  /** hexc of mdb_dump.c */
  function HexDigit(d: nat): byte
    requires d < 16
  { if d < 10 then 48 + d else 87 + d }

  /** c & 0x4f */
  function And4f(c: byte): nat { (c as nat) % 16 + 64 * ((c as nat) / 64 % 2) }

  /** One digit in unhex: letters of both cases lose 55 after masking. */
  function DigitValue(c: byte): int { if And4f(c) >= 64 then And4f(c) - 55 else And4f(c) }

  lemma DigitInRange(c: byte)
    requires IsXDigit(c)
    ensures 0 <= DigitValue(c) < 16
  {
  }

  lemma HexDigitBack(d: nat)
    requires d < 16
    ensures IsXDigit(HexDigit(d)) && DigitValue(HexDigit(d)) == d
  {
  }

  /** unhex of mdb_load.c; for hexadecimal digits the or is a sum. */
  function Unhex(a: byte, b: byte): byte
    requires IsXDigit(a) && IsXDigit(b)
  {
    DigitInRange(a);
    DigitInRange(b);
    16 * DigitValue(a) + DigitValue(b)
  }

  function Hex(c: byte): seq<byte> { [HexDigit((c as nat) / 16), HexDigit((c as nat) % 16)] }

  lemma HexBack(c: byte)
    ensures IsXDigit(Hex(c)[0]) && IsXDigit(Hex(c)[1]) && Unhex(Hex(c)[0], Hex(c)[1]) == c
  {
    HexDigitBack((c as nat) / 16);
    HexDigitBack((c as nat) % 16);
  }

  // ----- Encoding -----

  function TextChar(c: byte): seq<byte> {
    if IsPrint(c) then (if c == BACKSLASH then [BACKSLASH, BACKSLASH] else [c]) else [BACKSLASH] + Hex(c)
  }

  function Encode(v: seq<byte>, text: bool): seq<byte> {
    if v == [] then [] else Encode(v[..|v| - 1], text) + (if text then TextChar(v[|v| - 1]) else Hex(v[|v| - 1]))
  }

  lemma EncodeNext(v: seq<byte>, c: nat, text: bool)
    requires c < |v|
    ensures Encode(v[..c + 1], text) == Encode(v[..c], text) + (if text then TextChar(v[c]) else Hex(v[c]))
  {
    assert v[..c + 1][..c] == v[..c];
  }

  lemma EncodeMore(v: seq<byte>, c: byte, text: bool)
    ensures Encode(v + [c], text) == Encode(v, text) + (if text then TextChar(c) else Hex(c))
  {
    assert (v + [c])[..|v|] == v;
  }

  lemma {:induction false} EncodeConcat(a: seq<byte>, b: seq<byte>, text: bool)
    ensures Encode(a + b, text) == Encode(a, text) + Encode(b, text)
    decreases |b|
  {
    if b == [] {
      assert a + b == a && Encode(b, text) == [];
    } else {
      hide Encode, TextChar, Hex;
      var front, c := b[..|b| - 1], b[|b| - 1];
      Grouped(a, front, [c]);
      assert b == front + [c];
      EncodeConcat(a, front, text);
      EncodeMore(a + front, c, text);
      EncodeMore(front, c, text);
      Grouped(Encode(a, text), Encode(front, text), if text then TextChar(c) else Hex(c));
    }
  }

  lemma Grouped(a: seq<byte>, b: seq<byte>, c: seq<byte>)
    ensures (a + b) + c == a + (b + c)
  {
  }

  /** The characters 0 to 9 and a to f. */
  const DIGITS: seq<byte> := [48, 49, 50, 51, 52, 53, 54, 55, 56, 57, 97, 98, 99, 100, 101, 102]

  /** In a printed item every byte stands in its place as the format says: in text, a printable character for
    * itself and a backslash doubled, any other after a backslash as its two hexadecimal digits, the high one
    * first; otherwise all of them as these digits. */
  lemma EncodeAt(v: seq<byte>, i: nat, text: bool)
    requires i < |v|
    ensures var c := v[i] as nat;
      Encode(v, text) == Encode(v[..i], text) +
        (if text && 32 <= c <= 126 && c != 92 then [v[i]]
         else if text && c == 92 then [92, 92]
         else if text then [92, DIGITS[c / 16], DIGITS[c % 16]]
         else [DIGITS[c / 16], DIGITS[c % 16]])
        + Encode(v[i + 1..], text)
  {
    hide Encode, TextChar, Hex;
    assert v == v[..i + 1] + v[i + 1..];
    EncodeConcat(v[..i + 1], v[i + 1..], text);
    EncodeNext(v, i, text);
    CharIs(v[i]);
  }

  lemma CharIs(b: byte)
    ensures var c := b as nat;
      TextChar(b) == (if 32 <= c <= 126 && c != 92 then [b] else if c == 92 then [92, 92] else [92, DIGITS[c / 16], DIGITS[c % 16]])
      && Hex(b) == [DIGITS[c / 16], DIGITS[c % 16]]
  {
    DigitIs((b as nat) / 16);
    DigitIs((b as nat) % 16);
  }

  lemma DigitIs(d: nat)
    requires d < 16
    ensures HexDigit(d) == DIGITS[d]
  {
  }

  /** So an item of printable characters without a backslash is printed as it is. */
  lemma {:induction false} PlainText(v: seq<byte>)
    requires forall i :: 0 <= i < |v| ==> 32 <= v[i] <= 126 && v[i] != 92
    ensures Encode(v, true) == v
  {
    if v != [] {
      hide Encode, TextChar;
      var n := |v| - 1;
      assert v == v[..n] + [v[n]];
      PlainText(v[..n]);
      EncodeMore(v[..n], v[n], true);
      CharIs(v[n]);
    }
  }

  /** What text or byte prints for an item. */
  function Line(v: seq<byte>, text: bool): seq<byte> { [SPACE] + Encode(v, text) + [NL] }

  // ----- Decoding -----

  function Then(c: byte, rest: Option<seq<byte>>): Option<seq<byte>> {
    match rest
    case None => None
    case Some(s) => Some([c] + s)
  }

  function DecodeText(s: seq<byte>): Option<seq<byte>> {
    if s == [] then Some([])
    else if s[0] != BACKSLASH then Then(s[0], DecodeText(s[1..]))
    else if |s| >= 2 && s[1] == BACKSLASH then Then(BACKSLASH, DecodeText(s[2..]))
    else if |s| < 3 || !IsXDigit(s[1]) || !IsXDigit(s[2]) then None
    else Then(Unhex(s[1], s[2]), DecodeText(s[3..]))
  }

  function DecodePairs(s: seq<byte>): Option<seq<byte>> {
    if s == [] then Some([])
    else if |s| < 2 || !IsXDigit(s[0]) || !IsXDigit(s[1]) then None
    else Then(Unhex(s[0], s[1]), DecodePairs(s[2..]))
  }

  /** What readline makes of the characters of a line. */
  function Decode(s: seq<byte>, text: bool): Option<seq<byte>> {
    if text then DecodeText(s) else if |s| % 2 == 1 then None else DecodePairs(s)
  }

  // ----- Round trip -----

  function Joined(v: seq<byte>, rest: Option<seq<byte>>): Option<seq<byte>> {
    match rest
    case None => None
    case Some(s) => Some(v + s)
  }

  lemma TextCharBack(c: byte, s: seq<byte>)
    ensures DecodeText(TextChar(c) + s) == Then(c, DecodeText(s))
  {
    HexBack(c);
    var t := TextChar(c) + s;
    if IsPrint(c) && c == BACKSLASH {
      assert t[2..] == s;
    } else if IsPrint(c) {
      assert t[1..] == s;
    } else {
      assert t[1] == Hex(c)[0] && t[2] == Hex(c)[1] && t[3..] == s;
      NoHexBackslash(c);
    }
  }

  lemma NoHexBackslash(c: byte)
    ensures Hex(c)[0] != BACKSLASH && Hex(c)[1] != BACKSLASH
  {
  }

  lemma HexPairBack(c: byte, s: seq<byte>)
    ensures DecodePairs(Hex(c) + s) == Then(c, DecodePairs(s))
  {
    HexBack(c);
    assert (Hex(c) + s)[2..] == s;
  }

  lemma JoinedNone(rest: Option<seq<byte>>)
    ensures Joined([], rest) == rest
  {
    if rest.Some? { assert [] + rest.value == rest.value; }
  }

  lemma JoinedThen(v: seq<byte>, c: byte, rest: Option<seq<byte>>)
    ensures Joined(v, Then(c, rest)) == Joined(v + [c], rest)
  {
    if rest.Some? { assert v + ([c] + rest.value) == v + [c] + rest.value; }
  }

  lemma {:induction false} EncodeThen(v: seq<byte>, text: bool, s: seq<byte>)
    ensures text ==> DecodeText(Encode(v, text) + s) == Joined(v, DecodeText(s))
    ensures !text ==> DecodePairs(Encode(v, text) + s) == Joined(v, DecodePairs(s))
  {
    if v == [] {
      assert Encode(v, text) + s == s;
      JoinedNone(DecodeText(s));
      JoinedNone(DecodePairs(s));
    } else {
      var front, c := v[..|v| - 1], v[|v| - 1];
      var last := if text then TextChar(c) else Hex(c);
      assert Encode(v, text) + s == Encode(front, text) + (last + s);
      EncodeThen(front, text, last + s);
      assert v == front + [c];
      if text {
        TextCharBack(c, s);
        JoinedThen(front, c, DecodeText(s));
      } else {
        HexPairBack(c, s);
        JoinedThen(front, c, DecodePairs(s));
      }
    }
  }

  lemma {:induction false} EncodeEven(v: seq<byte>)
    ensures |Encode(v, false)| == 2 * |v|
  {
    if v != [] { EncodeEven(v[..|v| - 1]); }
  }

  lemma DecodeNothing()
    ensures DecodeText([]) == Some([]) && DecodePairs([]) == Some([])
  {
  }

  /** Decoding what was printed gives the item back, in both formats. */
  lemma RoundTrip(v: seq<byte>, text: bool)
    ensures Decode(Encode(v, text), text) == Some(v)
  {
    hide Encode, DecodeText, DecodePairs;
    EncodeThen(v, text, []);
    DecodeNothing();
    assert Encode(v, text) + [] == Encode(v, text);
    assert v + [] == v;
    if !text { EncodeEven(v); }
  }

  /** No line break and no NUL is printed inside a line; in fact all characters are printable. */
  lemma {:induction false} EncodePrintable(v: seq<byte>, text: bool)
    ensures forall i :: 0 <= i < |Encode(v, text)| ==> IsPrint(Encode(v, text)[i])
  {
    if v != [] {
      EncodePrintable(v[..|v| - 1], text);
      var c := v[|v| - 1];
      HexDigitBack((c as nat) / 16);
      HexDigitBack((c as nat) % 16);
    }
  }

  // ----- The printer -----

  class Output {
    var chars: seq<byte>

    constructor ()
      ensures chars == []
    { chars := []; }

    method Put(c: byte)
      modifies this
      ensures chars == old(chars) + [c]
    { chars := chars + [c]; }

    method PutHex(c: byte)
      modifies this
      ensures chars == old(chars) + Hex(c)
    {
      Put(HexDigit((c as nat) / 16));
      Put(HexDigit((c as nat) % 16));
    }

    /** text */
    method Text(v: seq<byte>)
      modifies this
      ensures chars == old(chars) + Line(v, true)
    {
      ghost var start := chars;
      Put(SPACE);
      var c := 0;
      while c < |v|
        invariant 0 <= c <= |v| && chars == start + ([SPACE] + Encode(v[..c], true))
      {
        EncodeNext(v, c, true);
        Escaped(v[c]);
        assert chars == start + ([SPACE] + (Encode(v[..c], true) + TextChar(v[c])));
        c := c + 1;
      }
      assert v[..c] == v;
      Put(NL);
    }

    /** One character, escaped unless it is printable. */
    method Escaped(b: byte)
      modifies this
      ensures chars == old(chars) + TextChar(b)
    {
      if IsPrint(b) {
        if b == BACKSLASH { Put(BACKSLASH); }
        Put(b);
      } else {
        Put(BACKSLASH);
        PutHex(b);
      }
    }

    /** byte */
    method Bytes(v: seq<byte>)
      modifies this
      ensures chars == old(chars) + Line(v, false)
    {
      ghost var start := chars;
      Put(SPACE);
      var c := 0;
      while c < |v|
        invariant 0 <= c <= |v| && chars == start + ([SPACE] + Encode(v[..c], false))
      {
        EncodeNext(v, c, false);
        PutHex(v[c]);
        assert chars == start + ([SPACE] + (Encode(v[..c], false) + Hex(v[c])));
        c := c + 1;
      }
      assert v[..c] == v;
      Put(NL);
    }

    method PutAll(t: seq<byte>)
      modifies this
      ensures chars == old(chars) + t
    {
      ghost var start := chars;
      var c := 0;
      while c < |t|
        invariant 0 <= c <= |t| && chars == start + t[..c]
      {
        Put(t[c]);
        c := c + 1;
      }
      assert t[..c] == t;
    }

    method DumpRecord(key: seq<byte>, data: seq<byte>, text: bool)
      modifies this
      ensures chars == old(chars) + (Line(key, text) + Line(data, text))
    {
      hide Line;
      if text {
        Text(key);
        Text(data);
      } else {
        Bytes(key);
        Bytes(data);
      }
    }

    /** The record loop of dumpit. */
    method Dump(records: seq<(seq<byte>, seq<byte>)>, text: bool)
      modifies this
      ensures chars == old(chars) + Dumped(records, text)
    {
      hide Line;
      ghost var start := chars;
      var i := 0;
      while i < |records|
        invariant 0 <= i <= |records| && chars == start + Records(records[..i], text)
      {
        assert records[..i + 1][..i] == records[..i];
        DumpRecord(records[i].0, records[i].1, text);
        i := i + 1;
      }
      assert records[..i] == records;
      PutAll(DataEnd());
    }
  }

  /** "DATA=END\n" */
  function DataEnd(): seq<byte> { [68, 65, 84, 65, 61, 69, 78, 68, NL] }

  function Records(records: seq<(seq<byte>, seq<byte>)>, text: bool): seq<byte> {
    if records == [] then [] else
      var r := records[|records| - 1];
      Records(records[..|records| - 1], text) + (Line(r.0, text) + Line(r.1, text))
  }

  function Dumped(records: seq<(seq<byte>, seq<byte>)>, text: bool): seq<byte> { Records(records, text) + DataEnd() }

  // ----- Reading lines -----

  /** How many characters fgets takes when it may take m: up to a line break. */
  function Taken(s: seq<byte>, m: nat): (k: nat)
    ensures k <= |s| && k <= m && (s != [] && m > 0 ==> k > 0)
    ensures forall i :: 0 <= i < k - 1 ==> s[i] != NL
    ensures k < m && k < |s| ==> k > 0 && s[k - 1] == NL
  { if s == [] || m == 0 then 0 else if s[0] == NL then 1 else 1 + Taken(s[1..], m - 1) }

  predicate NoNul(s: seq<byte>) { forall i :: 0 <= i < |s| ==> s[i] != 0 }

  /** Standard input and the file-level variables. */
  class Input {
    var stdin: seq<byte>
    var eof: bool
    var lineno: nat
    const text: bool  // mode & PRINT
    const nohdr: bool  // mode & NOHDR

    constructor (stdin: seq<byte>, text: bool, nohdr: bool)
      ensures this.stdin == stdin && !eof && this.text == text && this.nohdr == nohdr
    { this.stdin, eof, lineno, this.text, this.nohdr := stdin, false, 0, text, nohdr; }

    /** fgets into data[at..at + n]. */
    method Fgets(data: array<byte>, at: nat, n: nat) returns (ok: bool)
      requires n > 1 && at + n <= data.Length
      modifies this`stdin, data
      ensures ok <==> old(stdin) != []
      ensures !ok ==> stdin == old(stdin) && data[..] == old(data[..])
      ensures var k := Taken(old(stdin), n - 1); ok ==>
        stdin == old(stdin)[k..] && data[at..at + k] == old(stdin)[..k] && data[at + k] == 0 && data[..at] == old(data[..at])
    {
      ok := stdin != [];
      if ok {
        var k := Taken(stdin, n - 1);
        CopyIn(data, at, stdin[..k]);
        data[at + k] := 0;
        stdin := stdin[k..];
      }
    }
  }

  method CopyIn(data: array<byte>, at: nat, s: seq<byte>)
    requires at + |s| < data.Length
    modifies data
    ensures data[..at] == old(data[..at]) && data[at..at + |s|] == s
  {
    var i := 0;
    while i < |s|
      invariant 0 <= i <= |s|
      invariant forall x :: at <= x < at + i ==> data[x] == s[x - at]
      invariant forall x :: 0 <= x < at ==> data[x] == old(data[x])
    {
      data[at + i] := s[i];
      i := i + 1;
    }
  }

  /** strlen */
  method StrLen(data: array<byte>, at: nat, ghost k: nat) returns (len: nat)
    requires at + k < data.Length && data[at + k] == 0 && forall x :: at <= x < at + k ==> data[x] != 0
    ensures len == k
  {
    len := 0;
    while data[at + len] != 0
      invariant len <= k
      decreases k - len
    {
      len := len + 1;
    }
  }

  /** An MDB_val that readline reads into: `size` is mv_size. */
  class Buf {
    var data: array<byte>
    var size: nat

    ghost predicate Valid()
      reads this
    { 2 <= size <= data.Length }

    constructor (size: nat)
      requires size >= 2
      ensures Valid() && fresh(data) && this.size == size
    {
      data := new byte[size];
      this.size := size;
    }

    /** realloc to twice the size. */
    method Grow()
      requires Valid()
      modifies this`data
      ensures fresh(data) && data.Length == 2 * size && forall x :: 0 <= x < size ==> data[x] == old(data[x])
    {
      var d := new byte[2 * size];
      var i := 0;
      while i < size
        invariant 0 <= i <= size && d.Length == 2 * size && fresh(d) && data == old(data)
        invariant forall x :: 0 <= x < i ==> d[x] == old(data[x])
        invariant forall x :: 0 <= x < data.Length ==> data[x] == old(data[x])
      {
        d[i] := data[i];
        i := i + 1;
      }
      data := d;
    }
  }

  /** The place of the first line break, or the length. */
  function Break(s: seq<byte>): (p: nat)
    ensures p <= |s| && (p < |s| ==> s[p] == NL) && forall i :: 0 <= i < p ==> s[i] != NL
  { if s == [] || s[0] == NL then 0 else 1 + Break(s[1..]) }

  lemma BreakIs(s: seq<byte>, p: nat)
    requires p <= |s| && (p < |s| ==> s[p] == NL) && forall i :: 0 <= i < p ==> s[i] != NL
    ensures Break(s) == p
  {
  }

  /** What has been read of a line: `l2` characters, with no line break before the last. */
  ghost predicate Reading(s0: seq<byte>, stdin: seq<byte>, d: seq<byte>, l2: nat) {
    && 0 < l2 <= |s0| && l2 < |d| && stdin == s0[l2..] && d[..l2] == s0[..l2] && d[l2] == 0
    && forall i :: 0 <= i < l2 - 1 ==> s0[i] != NL
  }

  /** Double the buffer and read on. */
  method ReadMore(inp: Input, buf: Buf, l2: nat, ghost s0: seq<byte>) returns (more: bool, l: nat)
    requires buf.Valid() && NoNul(s0) && l2 < buf.size && Reading(s0, inp.stdin, buf.data[..], l2) && buf.data[l2 - 1] != NL
    modifies inp`stdin, buf
    ensures buf.Valid() && fresh(buf.data) && buf.size >= old(buf.size)
    ensures more ==> Reading(s0, inp.stdin, buf.data[..], l) && l < buf.size && |inp.stdin| < old(|inp.stdin|)
    ensures !more ==> Break(s0) == |s0| && inp.stdin == []
  {
    hide Taken, Break, Reading;
    ghost var was := buf.data[..];
    ReadingBounds(s0, inp.stdin, was, l2);
    buf.Grow();
    ghost var rest := inp.stdin;
    more := inp.Fgets(buf.data, l2, buf.size + 1);
    l := l2;
    if !more {
      NoBreak(s0, was, l2);
      return;
    }
    buf.size := buf.size * 2;
    ghost var k := Taken(rest, buf.size / 2);
    assert buf.data[..l2] == was[..l2];
    NextChunk(s0, was, l2, k, rest, inp.stdin, buf.data[..]);
    var len := StrLen(buf.data, l2, k);
    l := l2 + len;
  }

  lemma ReadingBounds(s0: seq<byte>, stdin: seq<byte>, d: seq<byte>, l2: nat)
    requires Reading(s0, stdin, d, l2)
    ensures 0 < l2 <= |s0| && l2 < |d| && stdin == s0[l2..]
  {
  }

  /** Read a line of any length: while it does not end in a line break the buffer is doubled. */
  method ReadWhole(inp: Input, buf: Buf) returns (ok: bool, len: nat)
    requires buf.Valid() && NoNul(inp.stdin)
    modifies inp, buf, buf.data
    ensures buf.Valid() && buf.size >= old(buf.size) && (buf.data == old(buf.data) || fresh(buf.data)) && NoNul(inp.stdin)
    ensures ok <==> Break(old(inp.stdin)) < |old(inp.stdin)|
    ensures ok ==> len == Break(old(inp.stdin)) + 1 < buf.data.Length && inp.stdin == old(inp.stdin)[len..]
    ensures ok ==> buf.data[..len] == old(inp.stdin)[..len] && inp.eof == old(inp.eof) && inp.lineno == old(inp.lineno) + 1
    ensures !ok ==> inp.eof
  {
    hide Taken, Break, Reading, NoNul;
    ghost var s0 := inp.stdin;
    ok := inp.Fgets(buf.data, 0, buf.size);
    len := 0;
    if !ok {
      inp.eof := true;
      BreakIs(s0, 0);
      return;
    }
    inp.lineno := inp.lineno + 1;
    ghost var k := Taken(s0, buf.size - 1);
    FirstChunk(s0, inp.stdin, buf.data[..], k);
    len := StrLen(buf.data, 0, k);
    ReadingBounds(s0, inp.stdin, buf.data[..], len);
    while buf.data[len - 1] != NL
      invariant buf.Valid() && buf.size >= old(buf.size) && (buf.data == old(buf.data) || fresh(buf.data))
      invariant 0 < len <= |s0| && Reading(s0, inp.stdin, buf.data[..], len) && len < buf.size
      invariant inp.eof == old(inp.eof) && inp.lineno == old(inp.lineno) + 1
      decreases |inp.stdin|
    {
      ok, len := ReadMore(inp, buf, len, s0);
      if !ok {
        inp.eof := true;
        NoNulRest(s0, |s0|);
        assert s0[|s0|..] == [] == inp.stdin;
        return;
      }
      ReadingBounds(s0, inp.stdin, buf.data[..], len);
    }
    NoNulRest(s0, len);
    LineRead(s0, inp.stdin, buf.data[..], len);
  }

  lemma NoNulRest(s: seq<byte>, k: nat)
    requires NoNul(s) && k <= |s|
    ensures NoNul(s[k..])
  {
  }

  lemma FirstChunk(s0: seq<byte>, stdin: seq<byte>, d: seq<byte>, k: nat)
    requires NoNul(s0) && 0 < k <= |s0| && k < |d| && stdin == s0[k..] && d[0..k] == s0[..k] && d[k] == 0
    requires forall i :: 0 <= i < k - 1 ==> s0[i] != NL
    ensures Reading(s0, stdin, d, k) && forall x :: 0 <= x < k ==> d[x] != 0
  {
    assert d[..k] == d[0..k];
    forall x | 0 <= x < k ensures d[x] != 0 { assert d[x] == d[0..k][x] == s0[x]; }
  }

  lemma NextChunk(s0: seq<byte>, was: seq<byte>, l2: nat, k: nat, rest: seq<byte>, stdin: seq<byte>, d: seq<byte>)
    requires 0 < l2 <= |s0| && l2 <= |was| && NoNul(s0) && rest == s0[l2..] && Reading(s0, rest, was, l2) && was[l2 - 1] != NL
    requires 0 < k <= |rest| && l2 + k < |d| && stdin == rest[k..] && d[l2..l2 + k] == rest[..k] && d[l2 + k] == 0
    requires d[..l2] == was[..l2] && forall i :: 0 <= i < k - 1 ==> rest[i] != NL
    ensures Reading(s0, stdin, d, l2 + k) && forall x :: l2 <= x < l2 + k ==> d[x] != 0
  {
    assert d[..l2 + k] == d[..l2] + d[l2..l2 + k];
    assert s0[..l2 + k] == s0[..l2] + rest[..k];
    assert was[l2 - 1] == was[..l2][l2 - 1] == s0[l2 - 1];
    forall i | l2 <= i < l2 + k - 1 ensures s0[i] != NL { assert s0[i] == rest[i - l2]; }
    forall x | l2 <= x < l2 + k ensures d[x] != 0 { assert d[x] == d[l2..l2 + k][x - l2] == s0[x]; }
  }

  lemma NoBreak(s0: seq<byte>, d: seq<byte>, l2: nat)
    requires Reading(s0, [], d, l2) && d[l2 - 1] != NL
    ensures Break(s0) == |s0|
  {
    assert d[l2 - 1] == d[..l2][l2 - 1] == s0[l2 - 1];
    BreakIs(s0, l2);
  }

  lemma LineRead(s0: seq<byte>, stdin: seq<byte>, d: seq<byte>, l2: nat)
    requires Reading(s0, stdin, d, l2) && d[l2 - 1] == NL
    ensures Break(s0) == l2 - 1 && l2 < |d| && d[..l2] == s0[..l2] && stdin == s0[l2..]
  {
    assert d[l2 - 1] == d[..l2][l2 - 1] == s0[l2 - 1];
    BreakIs(s0, l2 - 1);
  }

  // ----- Decoding in place -----

  /** The first c1 characters are decoded, those from c2 to len are as they were read. */
  ghost predicate Decoding(line: seq<byte>, d: seq<byte>, c1: nat, c2: nat, done: seq<byte>) {
    && c1 <= c2 <= |line| < |d| && d[..c1] == done && d[c2..|line|] == line[c2..]
    && d[|line|] == 0
  }

  lemma Decoded(line: seq<byte>, d: seq<byte>, c1: nat, c2: nat, done: seq<byte>, c: byte, n: nat, d': seq<byte>)
    requires Decoding(line, d, c1, c2, done) && c2 + n <= |line| && n > 0 && d' == d[c1 := c]
    ensures Decoding(line, d', c1 + 1, c2 + n, done + [c])
  {
    assert d'[..c1 + 1] == d[..c1] + [c];
    assert d'[c2 + n..|line|] == d[c2 + n..|line|] == d[c2..|line|][n..] == line[c2 + n..];
  }

  lemma Unread(line: seq<byte>, d: seq<byte>, c1: nat, c2: nat, done: seq<byte>)
    requires Decoding(line, d, c1, c2, done)
    ensures |line| < |d| && d[|line|] == 0 && forall i :: c2 <= i < |line| ==> d[i] == line[i]
  {
    forall i | c2 <= i < |line| ensures d[i] == line[i] { assert d[i] == d[c2..|line|][i - c2]; }
  }

  lemma DecodeBegins(line: seq<byte>, d: seq<byte>)
    requires |line| < |d| && d[..|line|] == line && d[|line|] == 0
    ensures Decoding(line, d, 0, 0, [])
    ensures Joined([], DecodeText(line[0..])) == DecodeText(line) && Joined([], DecodePairs(line[0..])) == DecodePairs(line)
  {
    assert line[0..] == line;
    JoinedNone(DecodeText(line));
    JoinedNone(DecodePairs(line));
  }

  lemma DecodeEnds(line: seq<byte>, d: seq<byte>, c1: nat, done: seq<byte>)
    requires Decoding(line, d, c1, |line|, done)
    ensures c1 <= |line| && d[..c1] == done
    ensures Joined(done, DecodeText(line[|line|..])) == Some(done) && Joined(done, DecodePairs(line[|line|..])) == Some(done)
  {
    assert line[|line|..] == [] && done + [] == done;
  }

  /** One step of DecodeText, at place c of a line. */
  lemma TextStep(line: seq<byte>, c: nat)
    requires c < |line|
    ensures line[c] != BACKSLASH ==> DecodeText(line[c..]) == Then(line[c], DecodeText(line[c + 1..]))
    ensures line[c] == BACKSLASH && c + 1 < |line| && line[c + 1] == BACKSLASH ==>
      DecodeText(line[c..]) == Then(BACKSLASH, DecodeText(line[c + 2..]))
    ensures line[c] == BACKSLASH && !(c + 1 < |line| && line[c + 1] == BACKSLASH) ==>
      if c + 2 < |line| && IsXDigit(line[c + 1]) && IsXDigit(line[c + 2])
      then DecodeText(line[c..]) == Then(Unhex(line[c + 1], line[c + 2]), DecodeText(line[c + 3..]))
      else DecodeText(line[c..]) == None
  {
    var s := line[c..];
    assert s[1..] == line[c + 1..];
    if |s| >= 2 { assert s[1] == line[c + 1] && s[2..] == line[c + 2..]; }
    if |s| >= 3 { assert s[2] == line[c + 2] && s[3..] == line[c + 3..]; }
  }

  lemma PairStep(line: seq<byte>, c: nat)
    requires c + 1 < |line|
    ensures if IsXDigit(line[c]) && IsXDigit(line[c + 1])
      then DecodePairs(line[c..]) == Then(Unhex(line[c], line[c + 1]), DecodePairs(line[c + 2..]))
      else DecodePairs(line[c..]) == None
  {
    var s := line[c..];
    assert s[0] == line[c] && s[1] == line[c + 1] && s[2..] == line[c + 2..];
  }

  /** The loop of readline for mode PRINT: it writes behind where it reads. */
  method DecodeTextInPlace(data: array<byte>, len: nat, ghost line: seq<byte>) returns (ok: bool, c1: nat)
    requires len == |line| < data.Length && data[..len] == line && data[len] == 0
    modifies data
    ensures ok <==> DecodeText(line).Some?
    ensures ok ==> c1 <= len && data[..c1] == DecodeText(line).value
  {
    hide DecodeText, Decoding, Unhex, IsXDigit;
    c1 := 0;
    var c2 := 0;
    ghost var done: seq<byte> := [];
    DecodeBegins(line, data[..]);
    while c2 < len
      invariant Decoding(line, data[..], c1, c2, done) && c1 <= c2 <= len
      invariant DecodeText(line) == Joined(done, DecodeText(line[c2..]))
    {
      Unread(line, data[..], c1, c2, done);
      TextStep(line, c2);
      if data[c2] == BACKSLASH {
        var c;
        var n;
        if data[c2 + 1] == BACKSLASH {
          c, n := data[c2], 2;
        } else {
          if c2 + 3 > len || !IsXDigit(data[c2 + 1]) || !IsXDigit(data[c2 + 2]) { return false, c1; }
          c, n := Unhex(data[c2 + 1], data[c2 + 2]), 3;
        }
        Decoded(line, data[..], c1, c2, done, c, n, data[..][c1 := c]);
        JoinedThen(done, c, DecodeText(line[c2 + n..]));
        data[c1] := c;
        c1, c2, done := c1 + 1, c2 + n, done + [c];
      } else {
        var c := data[c2];
        Decoded(line, data[..], c1, c2, done, c, 1, data[..][c1 := c]);
        JoinedThen(done, c, DecodeText(line[c2 + 1..]));
        data[c1] := c;
        c1, c2, done := c1 + 1, c2 + 1, done + [c];
      }
    }
    DecodeEnds(line, data[..], c1, done);
    ok := true;
  }

  /** The loop of readline for pairs of hexadecimal digits. */
  method DecodePairsInPlace(data: array<byte>, len: nat, ghost line: seq<byte>) returns (ok: bool, c1: nat)
    requires len == |line| < data.Length && data[..len] == line && data[len] == 0 && len % 2 == 0
    modifies data
    ensures ok <==> DecodePairs(line).Some?
    ensures ok ==> c1 <= len && data[..c1] == DecodePairs(line).value
  {
    hide DecodePairs, Decoding, Unhex, IsXDigit;
    c1 := 0;
    var c2 := 0;
    ghost var done: seq<byte> := [];
    DecodeBegins(line, data[..]);
    while c2 < len
      invariant Decoding(line, data[..], c1, c2, done) && c2 == 2 * c1 && c2 <= len
      invariant DecodePairs(line) == Joined(done, DecodePairs(line[c2..]))
    {
      Unread(line, data[..], c1, c2, done);
      PairStep(line, c2);
      if !IsXDigit(data[c2]) || !IsXDigit(data[c2 + 1]) { return false, c1; }
      var c := Unhex(data[c2], data[c2 + 1]);
      Decoded(line, data[..], c1, c2, done, c, 2, data[..][c1 := c]);
      JoinedThen(done, c, DecodePairs(line[c2 + 2..]));
      data[c1] := c;
      c1, c2, done := c1 + 1, c2 + 2, done + [c];
    }
    DecodeEnds(line, data[..], c1, done);
    ok := true;
  }

  // ----- readline -----

  /** The rest of a line after its first character, as readline takes it. */
  method ReadItem(inp: Input, buf: Buf) returns (ok: bool, size: nat)
    requires buf.Valid() && NoNul(inp.stdin)
    modifies inp, buf, buf.data
    ensures buf.Valid() && buf.size >= old(buf.size) && (buf.data == old(buf.data) || fresh(buf.data)) && NoNul(inp.stdin)
    ensures var s := old(inp.stdin); var p := Break(s);
      if p < |s| && Decode(s[..p], inp.text).Some?
      then ok && size <= buf.data.Length && buf.data[..size] == Decode(s[..p], inp.text).value
        && inp.stdin == s[p + 1..] && inp.eof == old(inp.eof) && inp.lineno == old(inp.lineno) + 1
      else !ok && inp.eof
  {
    hide Break, DecodeText, DecodePairs, NoNul;
    ghost var s := inp.stdin;
    var len;
    ok, len := ReadWhole(inp, buf);
    size := 0;
    if !ok { return; }
    len := len - 1;
    ghost var line := s[..len];
    buf.data[len] := 0;
    assert buf.data[..len] == line;
    if inp.text {
      ok, size := DecodeTextInPlace(buf.data, len, line);
    } else if len % 2 == 1 {
      ok := false;
    } else {
      ok, size := DecodePairsInPlace(buf.data, len, line);
    }
    if !ok { inp.eof := true; }
  }

  predicate StartsWith(s: seq<byte>, t: seq<byte>) { |t| <= |s| && s[..|t|] == t }

  lemma {:induction false} TakenWhole(s: seq<byte>, t: seq<byte>, m: nat)
    requires StartsWith(s, t) && t != [] && t[|t| - 1] == NL && m >= |t| && forall i :: 0 <= i < |t| - 1 ==> t[i] != NL
    ensures Taken(s, m) == |t|
  {
    assert forall i :: 0 <= i < |t| ==> s[i] == s[..|t|][i] == t[i];
    if |t| > 1 {
      assert s[1..][..|t| - 1] == t[1..];
      TakenWhole(s[1..], t[1..], m - 1);
    }
  }

  /** The line does not begin with a space: is it DATA=END? */
  method AtEnd(inp: Input, buf: Buf, c: byte) returns (clean: bool)
    requires buf.Valid() && buf.size > 16 && NoNul(inp.stdin)
    modifies inp, buf.data
    ensures clean <==> c == 68 && StartsWith(old(inp.stdin), DataEnd()[1..8])
    ensures inp.eof == if clean then old(inp.eof) else true
    ensures StartsWith(old(inp.stdin), DataEnd()[1..]) ==> inp.stdin == old(inp.stdin)[8..]
    ensures NoNul(inp.stdin)
  {
    hide Taken;
    ghost var s := inp.stdin;
    ghost var k := Taken(s, buf.size - 1);
    var want := DataEnd()[1..8];
    if StartsWith(s, DataEnd()[1..]) { TakenWhole(s, DataEnd()[1..], buf.size - 1); }
    clean := inp.Fgets(buf.data, 0, buf.size);
    if clean {
      NoNulRest(s, k);
      SameStart(s, buf.data[..], k, want, buf.size - 1);
      clean := c == 68 && buf.data[..7] == want;
    }
    if !clean { inp.eof := true; }
  }

  /** Comparing what fgets took is comparing the input. */
  lemma SameStart(s: seq<byte>, d: seq<byte>, k: nat, want: seq<byte>, m: nat)
    requires |want| == 7 && 7 < m && k == Taken(s, m) && k + 1 <= |d| && d[0..k] == s[..k] && d[k] == 0 && 8 <= |d|
    requires forall i :: 0 <= i < 7 ==> want[i] != NL && want[i] != 0
    requires s != []
    ensures d[..7] == want <==> StartsWith(s, want)
  {
    assert forall i :: 0 <= i < k ==> d[i] == d[0..k][i] == s[i];
    if d[..7] == want {
      assert forall i :: 0 <= i < 7 ==> d[i] == d[..7][i];
      assert s[..7] == want;
    }
    if StartsWith(s, want) {
      assert forall i :: 0 <= i < 7 ==> s[i] == s[..7][i] == want[i];
      assert d[..7] == want;
    }
  }

  /** readline.  Without a header (-T) the whole line is the item. */
  method ReadLine(inp: Input, buf: Buf) returns (ok: bool, size: nat)
    requires buf.Valid() && buf.size > 16 && NoNul(inp.stdin)
    modifies inp, buf, buf.data
    ensures buf.Valid() && buf.size >= old(buf.size) && (buf.data == old(buf.data) || fresh(buf.data)) && NoNul(inp.stdin)
    ensures var s := old(inp.stdin); var t := if inp.nohdr then s else if s == [] then [] else s[1..];
      var p := Break(t);
      if (inp.nohdr || StartsWith(s, [SPACE])) && p < |t| && Decode(t[..p], inp.text).Some?
      then ok && size <= buf.data.Length && buf.data[..size] == Decode(t[..p], inp.text).value
        && inp.stdin == t[p + 1..] && inp.eof == old(inp.eof)
      else !ok
    ensures !inp.nohdr && StartsWith(old(inp.stdin), DataEnd()) ==> !ok && inp.stdin == old(inp.stdin)[|DataEnd()|..] && inp.eof == old(inp.eof)
    ensures !ok && !(!inp.nohdr && StartsWith(old(inp.stdin), DataEnd()[..8])) ==> inp.eof
  {
    size := 0;
    if !inp.nohdr {
      if inp.stdin == [] {
        inp.eof := true;
        return false, 0;
      }
      var c := inp.stdin[0];
      inp.stdin := inp.stdin[1..];
      if c != SPACE {
        inp.lineno := inp.lineno + 1;
        ok := AtEnd(inp, buf, c);
        return false, 0;
      }
    }
    ok, size := ReadItem(inp, buf);
  }

  // ----- Whole dumps -----

  lemma LineBreak(v: seq<byte>, text: bool, rest: seq<byte>)
    ensures var e := Encode(v, text); var s := Line(v, text) + rest;
      StartsWith(s, [SPACE]) && s[1..] == e + [NL] + rest && Break(e + [NL] + rest) == |e| && (e + [NL] + rest)[..|e|] == e
      && (e + [NL] + rest)[|e| + 1..] == rest
  {
    var e := Encode(v, text);
    EncodePrintable(v, text);
    var t := e + [NL] + rest;
    assert Line(v, text) + rest == [SPACE] + t;
    assert forall i :: 0 <= i < |e| ==> t[i] == e[i];
    BreakIs(t, |e|);
  }

  /** The pair of records as one reads them from the front. */
  function RecordsFrom(records: seq<(seq<byte>, seq<byte>)>, text: bool): seq<byte> {
    if records == [] then [] else Line(records[0].0, text) + (Line(records[0].1, text) + RecordsFrom(records[1..], text))
  }

  lemma {:induction false} RecordsConcat(a: seq<(seq<byte>, seq<byte>)>, r: (seq<byte>, seq<byte>), text: bool)
    ensures RecordsFrom(a + [r], text) == RecordsFrom(a, text) + (Line(r.0, text) + Line(r.1, text))
  {
    hide Line;
    if a == [] {
      assert (a + [r])[1..] == [];
    } else {
      assert (a + [r])[1..] == a[1..] + [r];
      RecordsConcat(a[1..], r, text);
    }
  }

  lemma {:induction false} RecordsAreFrom(records: seq<(seq<byte>, seq<byte>)>, text: bool)
    ensures Records(records, text) == RecordsFrom(records, text)
  {
    if records != [] {
      var front, r := records[..|records| - 1], records[|records| - 1];
      assert records == front + [r];
      RecordsAreFrom(front, text);
      RecordsConcat(front, r, text);
    }
  }

  /** What is left to read: the records from i on. */
  ghost predicate LeftToRead(s: seq<byte>, records: seq<(seq<byte>, seq<byte>)>, i: nat, text: bool, more: seq<byte>) {
    i <= |records| && s == RecordsFrom(records[i..], text) + (DataEnd() + more)
  }

  lemma LoadBegins(s: seq<byte>, records: seq<(seq<byte>, seq<byte>)>, text: bool, more: seq<byte>)
    requires s == Dumped(records, text) + more
    ensures LeftToRead(s, records, 0, text, more)
  {
    RecordsAreFrom(records, text);
    assert records[0..] == records;
  }

  /** A key and its data, or the end. */
  method LoadRecord(inp: Input, kbuf: Buf, dbuf: Buf, ghost records: seq<(seq<byte>, seq<byte>)>, ghost i: nat, ghost more: seq<byte>)
    returns (ok: bool, key: seq<byte>, data: seq<byte>)
    requires kbuf != dbuf && kbuf.data != dbuf.data && kbuf.Valid() && dbuf.Valid() && kbuf.size > 16 && dbuf.size > 16
    requires !inp.nohdr && NoNul(inp.stdin) && LeftToRead(inp.stdin, records, i, inp.text, more)
    modifies inp, kbuf, dbuf, kbuf.data, dbuf.data
    ensures kbuf.data != dbuf.data && kbuf.Valid() && dbuf.Valid() && kbuf.size > 16 && dbuf.size > 16
    ensures (kbuf.data == old(kbuf.data) || fresh(kbuf.data)) && (dbuf.data == old(dbuf.data) || fresh(dbuf.data))
    ensures NoNul(inp.stdin) && inp.eof == old(inp.eof) && (ok <==> i < |records|)
    ensures if ok then (key, data) == records[i] && LeftToRead(inp.stdin, records, i + 1, inp.text, more) else inp.stdin == more
  {
    hide RecordsFrom, Line, NoNul, DataEnd, StartsWith;
    ghost var v, rest := [], more;
    ghost var rest2 := [];
    if i < |records| {
      rest2 := RecordsFrom(records[i + 1..], inp.text) + (DataEnd() + more);
      v, rest := records[i].0, Line(records[i].1, inp.text) + rest2;
      NextRecord(records, i, inp.text, DataEnd() + more);
    } else {
      EndLine(inp.stdin, records, inp.text, more);
    }
    var n;
    ok, n := ReadItemLine(inp, kbuf, i < |records|, v, rest);
    key, data := [], [];
    if ok {
      key := kbuf.data[..n];
      ok, n := ReadItemLine(inp, dbuf, true, records[i].1, rest2);
      data := dbuf.data[..n];
    }
  }

  /** The inner loop of mdb_load reads from a dump exactly the records it was made of. */
  method Load(inp: Input, kbuf: Buf, dbuf: Buf, ghost records: seq<(seq<byte>, seq<byte>)>, ghost more: seq<byte>)
    returns (loaded: seq<(seq<byte>, seq<byte>)>)
    requires kbuf != dbuf && kbuf.data != dbuf.data && kbuf.Valid() && dbuf.Valid() && kbuf.size > 16 && dbuf.size > 16
    requires !inp.nohdr && NoNul(inp.stdin) && inp.stdin == Dumped(records, inp.text) + more
    modifies inp, kbuf, dbuf, kbuf.data, dbuf.data
    ensures loaded == records && inp.stdin == more && inp.eof == old(inp.eof)
  {
    hide LeftToRead, NoNul, Dumped;
    loaded := [];
    ghost var i := 0;
    LoadBegins(inp.stdin, records, inp.text, more);
    while true
      invariant 0 <= i <= |records| && loaded == records[..i]
      invariant kbuf.data != dbuf.data && kbuf.Valid() && dbuf.Valid() && kbuf.size > 16 && dbuf.size > 16
      invariant kbuf.data == old(kbuf.data) || fresh(kbuf.data)
      invariant dbuf.data == old(dbuf.data) || fresh(dbuf.data)
      invariant NoNul(inp.stdin) && inp.eof == old(inp.eof) && LeftToRead(inp.stdin, records, i, inp.text, more)
      decreases |records| - i
    {
      var ok, key, data := LoadRecord(inp, kbuf, dbuf, records, i, more);
      if !ok { break; }
      loaded := loaded + [(key, data)];
      i := i + 1;
    }
  }

  lemma EndLine(s: seq<byte>, records: seq<(seq<byte>, seq<byte>)>, text: bool, more: seq<byte>)
    requires LeftToRead(s, records, |records|, text, more)
    ensures StartsWith(s, DataEnd()) && s[|DataEnd()|..] == more
  {
    assert records[|records|..] == [];
    assert s == DataEnd() + more;
  }

  lemma NextRecord(records: seq<(seq<byte>, seq<byte>)>, i: nat, text: bool, tail: seq<byte>)
    requires i < |records|
    ensures RecordsFrom(records[i..], text) + tail ==
      Line(records[i].0, text) + (Line(records[i].1, text) + (RecordsFrom(records[i + 1..], text) + tail))
  {
    assert records[i..][1..] == records[i + 1..];
  }

  /** readline on a line that was printed for v, or on DATA=END. */
  method ReadItemLine(inp: Input, buf: Buf, ghost item: bool, ghost v: seq<byte>, ghost rest: seq<byte>) returns (ok: bool, n: nat)
    requires buf.Valid() && buf.size > 16 && NoNul(inp.stdin) && !inp.nohdr
    requires if item then inp.stdin == Line(v, inp.text) + rest else StartsWith(inp.stdin, DataEnd()) && inp.stdin[|DataEnd()|..] == rest
    modifies inp, buf, buf.data
    ensures buf.Valid() && buf.size >= old(buf.size) && (buf.data == old(buf.data) || fresh(buf.data)) && NoNul(inp.stdin)
    ensures ok == item && inp.stdin == rest && inp.eof == old(inp.eof)
    ensures ok ==> n <= buf.data.Length && buf.data[..n] == v
  {
    hide Line, DecodeText, DecodePairs, Break, NoNul;
    if item {
      LineBreak(v, inp.text, rest);
      RoundTrip(v, inp.text);
    } else {
      NotSpace(inp.stdin);
    }
    ok, n := ReadLine(inp, buf);
  }

  lemma NotSpace(s: seq<byte>)
    requires StartsWith(s, DataEnd())
    ensures !StartsWith(s, [SPACE])
  {
    assert s[0] == s[..|DataEnd()|][0] == 68;
    assert |s| > 0 ==> s[..1][0] == s[0];
  }

  predicate Clean(c: byte) { IsPrint(c) || c == NL }

  lemma LineClean(v: seq<byte>, text: bool)
    ensures forall i :: 0 <= i < |Line(v, text)| ==> Clean(Line(v, text)[i])
  {
    EncodePrintable(v, text);
  }

  /** A dump holds printable characters and line breaks only. */
  lemma {:induction false} RecordsClean(records: seq<(seq<byte>, seq<byte>)>, text: bool)
    ensures forall i :: 0 <= i < |Records(records, text)| ==> Clean(Records(records, text)[i])
  {
    hide Line;
    if records != [] {
      var front, r := records[..|records| - 1], records[|records| - 1];
      RecordsClean(front, text);
      LineClean(r.0, text);
      LineClean(r.1, text);
    }
  }

  lemma DumpedClean(records: seq<(seq<byte>, seq<byte>)>, text: bool)
    ensures NoNul(Dumped(records, text))
  {
    RecordsClean(records, text);
  }

  /** What is dumped can be loaded again, for every list of records and in both formats. */
  method DumpAndLoad(records: seq<(seq<byte>, seq<byte>)>, text: bool, size: nat) returns (loaded: seq<(seq<byte>, seq<byte>)>)
    requires size > 16
    ensures loaded == records
  {
    hide Dumped, NoNul;
    var output := new Output();
    output.Dump(records, text);
    DumpedClean(records, text);
    assert [] + Dumped(records, text) == Dumped(records, text) == Dumped(records, text) + [];
    var inp := new Input(output.chars, text, false);
    var kbuf := new Buf(size);
    var dbuf := new Buf(size);
    loaded := Load(inp, kbuf, dbuf, records, []);
  }
}
