/** Looking for the one file of a tar archive: how the size field is read, where the
    reader goes from a header, and when it comes to an end. */
module TarReader {
  import opened Wrappers
  import opened Octal

  const BLOCK := 512
  const MINUS: byte := 45
  const PLUS: byte := 43

  /** The size in whole blocks, up. */
  function RoundUp(n: int): int {
    (n + 511) / 512 * 512
  }

  // --- A header's size field ---

  predicate IsSpace(b: byte) {
    9 <= b <= 13 || b == 32
  }

  /** Cut at the first NUL that no line break follows. */
  function BeforeNul(s: seq<byte>): seq<byte> {
    if s == [] then []
    else if s[0] == 0 && (forall k :: 1 <= k < |s| ==> s[k] != 10 && s[k] != 13) then []
    else [s[0]] + BeforeNul(s[1..])
  }

  function TrimStart(s: seq<byte>): seq<byte> {
    if s != [] && IsSpace(s[0]) then TrimStart(s[1..]) else s
  }

  function TrimEnd(s: seq<byte>): seq<byte> {
    if s != [] && IsSpace(s[|s| - 1]) then TrimEnd(s[..|s| - 1]) else s
  }

  function LeadingDigits(s: seq<byte>): (d: seq<byte>)
    ensures forall k :: 0 <= k < |d| ==> IsDigit(d[k])
  {
    if s != [] && IsDigit(s[0]) then [s[0]] + LeadingDigits(s[1..]) else []
  }

  /** The seven-bit text of a field. */
  function Ascii(field: seq<byte>): seq<byte> {
    seq(|field|, i requires 0 <= i < |field| => field[i] % 128)
  }

  lemma AsciiSame(field: seq<byte>)
    requires forall k :: 0 <= k < |field| ==> field[k] < 128
    ensures Ascii(field) == field
  {
  }

  /** JavaScript's parseInt in base eight: a sign, and the digits that follow it.
      None is its NaN. */
  function ParseOctal(text: seq<byte>): Option<int> {
    var signed := text != [] && (text[0] == MINUS || text[0] == PLUS);
    var digits := LeadingDigits(if signed then text[1..] else text);
    var value: int := Value(digits);
    if digits == [] then None
    else if signed && text[0] == MINUS then Some(-value)
    else Some(value)
  }

  /** The ascii text of the field up to a NUL, trimmed, as a number; nothing is 0. */
  function SizeOf(field: seq<byte>): Option<int> {
    var text := TrimEnd(TrimStart(BeforeNul(Ascii(field))));
    ParseOctal(if text == [] then [ZERO] else text)
  }

  // --- From header to header ---

  /** An index as JavaScript's subarray takes it: a negative one counts from the end. */
  function Index(i: int, n: nat): nat {
    if i < 0 then (if n + i < 0 then 0 else n + i) else if i > n then n else i
  }

  function Subarray(s: seq<byte>, start: int, end: int): seq<byte> {
    var a, b := Index(start, |s|), Index(end, |s|);
    if a <= b then s[a..b] else []
  }

  predicate AllZero(s: seq<byte>) {
    forall k :: 0 <= k < |s| ==> s[k] == 0
  }

  /** Byte 156, where NUL and a header too short for it read as the digit 0. */
  function TypeOf(header: seq<byte>): byte {
    if |header| > 156 && header[156] != 0 then header[156] else ZERO
  }

  function HeaderAt(tar: seq<byte>, offset: int): seq<byte> {
    Subarray(tar, offset, offset + BLOCK)
  }

  function SizeAt(tar: seq<byte>, offset: int): Option<int> {
    SizeOf(Subarray(HeaderAt(tar, offset), 124, 136))
  }

  datatype Result = File(data: seq<byte>) | Directory | Link | NoFile

  /** The reader stands at a header, or has come to its answer. */
  datatype Reader = At(offset: int) | Done(result: Result)

  /** One header. A size that is no number ends the search, as a file of it is empty. */
  function Step(tar: seq<byte>, offset: int): Reader {
    if offset + BLOCK > |tar| then Done(NoFile)
    else
      var header, size, start := HeaderAt(tar, offset), SizeAt(tar, offset), offset + BLOCK;
      var t := TypeOf(header);
      if AllZero(header) then Done(NoFile)
      else if t == 48 || t == 55 then Done(File(Subarray(tar, start, if size.None? then 0 else start + size.value)))
      else if t == 53 then Done(Directory)
      else if t == 50 || t == 49 then Done(Link)
      else if size.None? then Done(NoFile)
      else At(start + RoundUp(size.value))
  }

  /** The reader after up to `n` more headers. */
  function After(tar: seq<byte>, r: Reader, n: nat): Reader
    decreases n
  {
    if n == 0 || r.Done? then r else After(tar, Step(tar, r.offset), n - 1)
  }

  ghost predicate Extracts(tar: seq<byte>, result: Result) {
    exists n: nat :: After(tar, At(0), n) == Done(result)
  }

  /** The search comes to an end. */
  ghost predicate Ends(tar: seq<byte>) {
    exists n: nat :: After(tar, At(0), n).Done?
  }

  lemma {:induction false} AfterAfter(tar: seq<byte>, r: Reader, m: nat, n: nat)
    ensures After(tar, r, m + n) == After(tar, After(tar, r, m), n)
    decreases m
  {
    hide Step;
    if m > 0 && r.At? {
      AfterAfter(tar, Step(tar, r.offset), m - 1, n);
    }
  }

  lemma DoneStays(tar: seq<byte>, r: Reader, m: nat, n: nat)
    requires m <= n && After(tar, r, m).Done?
    ensures After(tar, r, n) == After(tar, r, m)
  {
    AfterAfter(tar, r, m, n - m);
  }

  /** There is one answer at most. */
  lemma OneAnswer(tar: seq<byte>, a: Result, b: Result)
    requires Extracts(tar, a) && Extracts(tar, b)
    ensures a == b
  {
    var m: nat :| After(tar, At(0), m) == Done(a);
    var n: nat :| After(tar, At(0), n) == Done(b);
    if m <= n {
      DoneStays(tar, At(0), m, n);
    } else {
      DoneStays(tar, At(0), n, m);
    }
  }

  /** Whatever the archive holds, if the search ends it ends with this answer. */
  method ExtractSingleFile(tar: seq<byte>) returns (result: Result)
    requires Ends(tar)
    ensures Extracts(tar, result)
  {
    hide SizeOf, Subarray, AllZero, TypeOf, RoundUp;
    ghost var total: nat :| After(tar, At(0), total).Done?;
    ghost var n: nat := 0;
    var offset := 0;
    while offset + BLOCK <= |tar|
      invariant n <= total && After(tar, At(0), n) == At(offset)
      decreases total - n
    {
      if n == total {
        assert false;
      }
      AfterAfter(tar, At(0), n, 1);
      assert After(tar, At(0), n + 1) == Step(tar, offset);
      var header := Subarray(tar, offset, offset + BLOCK);
      if AllZero(header) {
        break;
      }
      var size := SizeOf(Subarray(header, 124, 136));
      var t := TypeOf(header);
      var start := offset + BLOCK;
      if t == 48 || t == 55 {
        return File(Subarray(tar, start, if size.None? then 0 else start + size.value));
      }
      if t == 53 {
        return Directory;
      }
      if t == 50 || t == 49 {
        return Link;
      }
      if size.None? {
        return NoFile;
      }
      offset := start + RoundUp(size.value);
      n := n + 1;
    }
    AfterAfter(tar, At(0), n, 1);
    assert After(tar, At(0), n + 1) == Step(tar, offset);
    return NoFile;
  }

  // --- When the search ends ---

  /** The header is one the reader passes over. */
  predicate Skips(tar: seq<byte>, offset: int) {
    Step(tar, offset).At?
  }

  /** A skipped header is left behind exactly when its size is above -512; between
      -1023 and -512 the reader stays where it is, below that it goes back. */
  lemma SkipMoves(tar: seq<byte>, offset: int)
    requires Skips(tar, offset)
    ensures SizeAt(tar, offset).Some?
    ensures Step(tar, offset).offset > offset <==> SizeAt(tar, offset).value > -512
    ensures Step(tar, offset).offset == offset <==> -1024 < SizeAt(tar, offset).value <= -512
    ensures Step(tar, offset).offset > offset ==> Step(tar, offset).offset >= offset + BLOCK
  {
    hide SizeAt, HeaderAt, AllZero, TypeOf;
  }

  /** And then it stays there for ever. */
  lemma {:induction false} StuckForEver(tar: seq<byte>, offset: int, n: nat)
    requires Skips(tar, offset) && -1024 < SizeAt(tar, offset).value <= -512
    ensures After(tar, At(offset), n) == At(offset)
  {
    hide Step, SizeAt;
    SkipMoves(tar, offset);
    if n > 0 {
      StuckForEver(tar, offset, n - 1);
    }
  }

  /** So an archive that leads the reader to such a header is never read to an end. */
  lemma NeverEnds(tar: seq<byte>, k: nat)
    requires After(tar, At(0), k).At?
    requires Skips(tar, After(tar, At(0), k).offset) && -1024 < SizeAt(tar, After(tar, At(0), k).offset).value <= -512
    ensures !Ends(tar)
  {
    hide Skips, SizeAt;
    forall n: nat
      ensures !After(tar, At(0), n).Done?
    {
      StuckForEver(tar, After(tar, At(0), k).offset, n);
      AfterAfter(tar, At(0), k, n);
      if After(tar, At(0), n).Done? {
        DoneStays(tar, At(0), n, k + n);
      }
    }
  }

  /** Every header the reader passes over says a size above -512. */
  ghost predicate Forward(tar: seq<byte>) {
    forall k: nat :: After(tar, At(0), k).At? && Skips(tar, After(tar, At(0), k).offset) ==>
      SizeAt(tar, After(tar, At(0), k).offset).value > -512
  }

  lemma {:induction false} ForwardAdvances(tar: seq<byte>, k: nat)
    requires Forward(tar)
    ensures After(tar, At(0), k).At? ==> After(tar, At(0), k).offset >= BLOCK * k
  {
    hide Step, SizeAt;
    if k > 0 {
      ForwardAdvances(tar, k - 1);
      AfterAfter(tar, At(0), k - 1, 1);
      var r := After(tar, At(0), k - 1);
      if r.At? {
        assert After(tar, r, 1) == Step(tar, r.offset);
        if Skips(tar, r.offset) {
          SkipMoves(tar, r.offset);
        }
      }
    }
  }

  /** Then the search ends, within one header a block. */
  lemma ForwardEnds(tar: seq<byte>)
    requires Forward(tar)
    ensures After(tar, At(0), |tar| / BLOCK + 1).Done? && Ends(tar)
  {
    hide After, Step, Forward;
    EndsWithin(tar, |tar| / BLOCK);
  }

  lemma EndsWithin(tar: seq<byte>, n: nat)
    requires Forward(tar) && n == |tar| / BLOCK
    ensures After(tar, At(0), n + 1).Done?
  {
    hide After, Step, Forward;
    ForwardAdvances(tar, n);
    AfterAfter(tar, At(0), n, 1);
    BlocksCover(|tar|);
    PastTheEnd(tar, After(tar, At(0), n));
  }

  lemma BlocksCover(length: nat)
    ensures BLOCK * (length / BLOCK) + BLOCK > length
  {
  }

  lemma PastTheEnd(tar: seq<byte>, r: Reader)
    requires r.At? ==> r.offset + BLOCK > |tar|
    ensures After(tar, r, 1).Done?
  {
    hide SizeAt, HeaderAt, TypeOf, AllZero;
    if r.At? {
      assert After(tar, r, 1) == After(tar, Step(tar, r.offset), 0);
    }
  }

  /** The reader comes back to a header it has passed over before. */
  ghost predicate Revisits(tar: seq<byte>, j: nat, k: nat) {
    j < k && After(tar, At(0), j).At? && After(tar, At(0), k) == After(tar, At(0), j)
  }

  lemma {:induction false} RevisitGoesRound(tar: seq<byte>, j: nat, k: nat, n: nat)
    requires Revisits(tar, j, k)
    ensures After(tar, At(0), n).At?
    decreases n
  {
    hide Step;
    if n <= k {
      if After(tar, At(0), n).Done? {
        DoneStays(tar, At(0), n, k);
      }
    } else {
      RevisitGoesRound(tar, j, k, n - (k - j));
      AfterAfter(tar, At(0), k, n - k);
      AfterAfter(tar, At(0), j, n - k);
      assert j + (n - k) == n - (k - j) && k + (n - k) == n;
    }
  }

  /** Where a header can be passed over: less than the archive's length before its
      start, as a negative offset counts from the end. */
  lemma SkipsWithin(tar: seq<byte>, offset: int)
    requires Skips(tar, offset)
    ensures -|tar| - BLOCK < offset <= |tar| - BLOCK
  {
    hide SizeAt, TypeOf, RoundUp;
    FarBack(tar, offset);
    hide HeaderAt;
  }

  lemma FarBack(tar: seq<byte>, offset: int)
    ensures offset <= -|tar| - BLOCK ==> AllZero(HeaderAt(tar, offset))
  {
  }

  lemma {:induction false} Numbers(lo: int, n: nat) returns (all: set<int>)
    ensures |all| == n && forall x :: x in all <==> lo < x <= lo + n
  {
    if n == 0 {
      all := {};
    } else {
      var fewer := Numbers(lo, n - 1);
      all := fewer + {lo + n};
    }
  }

  lemma {:induction false} DistinctSet(s: seq<int>) returns (all: set<int>)
    requires Distinct(s)
    ensures |all| == |s| && forall x :: x in all <==> x in s
  {
    if s == [] {
      all := {};
    } else {
      var front, last := s[..|s| - 1], s[|s| - 1];
      var fewer := DistinctSet(front);
      all := fewer + {last};
      assert s == front + [last];
    }
  }

  lemma Pigeonhole(s: seq<int>, lo: int, n: nat)
    requires Distinct(s) && forall k :: 0 <= k < |s| ==> lo < s[k] <= lo + n
    ensures |s| <= n
  {
    var places := Numbers(lo, n);
    var visited := DistinctSet(s);
    forall x | x in visited
      ensures x in places
    {
      var k :| 0 <= k < |s| && s[k] == x;
    }
    Smaller(visited, places);
  }

  lemma Smaller(a: set<int>, b: set<int>)
    requires a <= b
    ensures |a| <= |b|
  {
    assert b == a + (b - a);
  }

  /** The offsets passed over in the first `n` steps. */
  function Trail(tar: seq<byte>, n: nat): seq<int> {
    if n == 0 then []
    else Trail(tar, n - 1) + [if After(tar, At(0), n - 1).At? then After(tar, At(0), n - 1).offset else 0]
  }

  lemma {:induction false} TrailAt(tar: seq<byte>, n: nat, k: nat)
    requires k < n && After(tar, At(0), k).At?
    ensures |Trail(tar, n)| == n && Trail(tar, n)[k] == After(tar, At(0), k).offset
  {
    hide After;
    if k < n - 1 {
      TrailAt(tar, n - 1, k);
    } else {
      TrailLength(tar, n - 1);
    }
  }

  lemma {:induction false} TrailLength(tar: seq<byte>, n: nat)
    ensures |Trail(tar, n)| == n
  {
    if n > 0 {
      TrailLength(tar, n - 1);
    }
  }

  lemma StillAtBefore(tar: seq<byte>, n: nat, k: nat)
    requires k < n && After(tar, At(0), n).At?
    ensures After(tar, At(0), k).At? && Skips(tar, After(tar, At(0), k).offset)
  {
    if After(tar, At(0), k).Done? {
      DoneStays(tar, At(0), k, n);
    } else {
      AfterAfter(tar, At(0), k, 1);
      assert After(tar, At(0), k + 1) == Step(tar, After(tar, At(0), k).offset);
      if After(tar, At(0), k + 1).Done? {
        DoneStays(tar, At(0), k + 1, n);
      }
    }
  }

  /** The search ends if and only if it never comes back to a header, and then within
      two steps a byte: a reader that counts its steps can tell. */
  lemma EndsExactly(tar: seq<byte>)
    ensures Ends(tar) <==> forall j: nat, k: nat :: !Revisits(tar, j, k)
    ensures Ends(tar) <==> After(tar, At(0), 2 * |tar| + 1).Done?
  {
    hide Step, Revisits, Trail;
    var n := 2 * |tar| + 1;
    if After(tar, At(0), n).Done? {
      forall j: nat, k: nat
        ensures !Revisits(tar, j, k)
      {
        if Revisits(tar, j, k) {
          RevisitGoesRound(tar, j, k, n);
        }
      }
    } else {
      var j, k := ComesBack(tar, n);
      forall m: nat
        ensures !After(tar, At(0), m).Done?
      {
        RevisitGoesRound(tar, j, k, m);
      }
    }
  }

  lemma ComesBack(tar: seq<byte>, n: nat) returns (j: nat, k: nat)
    requires n > 2 * |tar| && After(tar, At(0), n).At?
    ensures Revisits(tar, j, k)
  {
    hide Step, After, Trail, Skips;
    var offsets := Trail(tar, n);
    TrailLength(tar, n);
    forall i | 0 <= i < n
      ensures -|tar| - BLOCK < offsets[i] <= -|tar| - BLOCK + 2 * |tar|
      ensures After(tar, At(0), i) == At(offsets[i])
    {
      StillAtBefore(tar, n, i);
      TrailAt(tar, n, i);
      SkipsWithin(tar, offsets[i]);
    }
    if Distinct(offsets) {
      Pigeonhole(offsets, -|tar| - BLOCK, 2 * |tar|);
      assert false;
    }
    j, k :| 0 <= j < k < n && offsets[j] == offsets[k];
  }

  // --- An archive that is never read to an end ---

  /** A header of type x with `-1000` in its size field. */
  function BackwardHeader(): seq<byte> {
    seq(BLOCK, i =>
      if i == 124 then MINUS else if i == 125 then 49 else if 126 <= i < 129 then 48 else if i == 156 then 120 else 0)
  }

  lemma BackwardSize()
    ensures SizeOf(Subarray(HeaderAt(BackwardHeader(), 0), 124, 136)) == Some(-512)
  {
    hide Ascii, BeforeNul, LeadingDigits, Value, TrimStart, TrimEnd, Subarray, HeaderAt, BackwardHeader;
    BackwardField();
    AsciiSame(BACKWARD + NULS);
    TextBeforeNul(BACKWARD, NULS);
    NothingToTrim(BACKWARD);
    DigitsLead([49, 48, 48, 48]);
    assert BACKWARD[1..] == [49, 48, 48, 48];
    ValueOfThousand();
  }

  const BACKWARD: seq<byte> := [45, 49, 48, 48, 48]
  const NULS: seq<byte> := [0, 0, 0, 0, 0, 0, 0]

  lemma BackwardField()
    ensures HeaderAt(BackwardHeader(), 0) == BackwardHeader()
    ensures Subarray(HeaderAt(BackwardHeader(), 0), 124, 136) == BACKWARD + NULS
  {
    assert HeaderAt(BackwardHeader(), 0) == BackwardHeader();
  }

  lemma NothingToTrim(text: seq<byte>)
    requires text != [] && !IsSpace(text[0]) && !IsSpace(text[|text| - 1])
    ensures TrimEnd(TrimStart(text)) == text
  {
  }

  lemma ValueOfThousand()
    ensures Value([49, 48, 48, 48]) == 512
  {
    var a: seq<byte>, b: seq<byte>, c: seq<byte>, d: seq<byte> := [49], [49, 48], [49, 48, 48], [49, 48, 48, 48];
    assert d[..3] == c && c[..2] == b && b[..1] == a && a[..0] == [];
    assert Value(a) == 1;
    assert Value(b) == 8;
    assert Value(c) == 64;
  }

  lemma {:induction false} DigitsLead(d: seq<byte>)
    requires forall k :: 0 <= k < |d| ==> IsDigit(d[k])
    ensures LeadingDigits(d) == d
  {
    if d != [] {
      DigitsLead(d[1..]);
      assert d == [d[0]] + d[1..];
    }
  }

  lemma {:induction false} TextBeforeNul(text: seq<byte>, tail: seq<byte>)
    requires forall k :: 0 <= k < |text| ==> text[k] != 0
    requires tail == [] || (tail[0] == 0 && forall k :: 0 <= k < |tail| ==> tail[k] != 10 && tail[k] != 13)
    ensures BeforeNul(text + tail) == text
  {
    if text == [] {
      assert text + tail == tail;
    } else {
      TextBeforeNul(text[1..], tail);
      assert (text + tail)[1..] == text[1..] + tail && text == [text[0]] + text[1..];
    }
  }

  /** One extended header with the size -512 keeps the reader for ever. */
  lemma OneHeaderNeverEnds()
    ensures !Ends(BackwardHeader())
  {
    hide BackwardHeader, Ends, After, Step, SizeAt;
    BackwardStep();
    NothingRead(BackwardHeader());
    NeverEnds(BackwardHeader(), 0);
  }

  lemma NothingRead(tar: seq<byte>)
    ensures After(tar, At(0), 0) == At(0)
  {
  }

  lemma BackwardStep()
    ensures Step(BackwardHeader(), 0) == At(0) && SizeAt(BackwardHeader(), 0) == Some(-512)
  {
    hide SizeOf, Subarray, HeaderAt;
    BackwardSize();
    BackwardField();
    assert BackwardHeader()[156] == 120;
  }
}
