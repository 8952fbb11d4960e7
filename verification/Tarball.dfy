/** A one-file ustar archive: written into a header buffer field by field, and
    found again behind the extended headers a runtime may put before it. */
module Tarball {
  import opened Wrappers
  import opened Octal
  import opened TarReader

  /** n bytes of zero. */
  function Blank(n: nat): seq<byte> {
    seq(n, _ => 0)
  }

  // --- Writing ---

  /** The text written into the buffer at an offset, as far as there is room. */
  function Overlay(buf: seq<byte>, text: seq<byte>, offset: nat): (r: seq<byte>)
    ensures |r| == |buf|
  {
    seq(|buf|, i requires 0 <= i < |buf| => if offset <= i < offset + |text| then text[i - offset] else buf[i])
  }

  method WriteAt(buf: array<byte>, text: seq<byte>, offset: nat)
    modifies buf
    ensures buf[..] == Overlay(old(buf[..]), text, offset)
  {
    var k := 0;
    while k < |text| && offset + k < buf.Length
      invariant 0 <= k <= |text|
      invariant forall i :: 0 <= i < buf.Length ==>
        buf[i] == if offset <= i < offset + k then text[i - offset] else old(buf[i])
    {
      buf[offset + k] := text[k];
      k := k + 1;
    }
    assert forall i :: 0 <= i < buf.Length ==> buf[..][i] == Overlay(old(buf[..]), text, offset)[i];
  }

  function Sum(s: seq<byte>): nat {
    if s == [] then 0 else Sum(s[..|s| - 1]) + s[|s| - 1]
  }

  method Total(buf: array<byte>) returns (sum: nat)
    ensures sum == Sum(buf[..])
  {
    sum := 0;
    for i := 0 to buf.Length
      invariant sum == Sum(buf[..i])
    {
      assert buf[..i + 1][..i] == buf[..i];
      sum := sum + buf[i];
    }
    assert buf[..buf.Length] == buf[..];
  }

  const MODE: seq<byte> := [48, 48, 48, 48, 54, 52, 52, 0]
  const NOBODY: seq<byte> := [48, 48, 48, 48, 48, 48, 48, 0]
  const SPACES: seq<byte> := [32, 32, 32, 32, 32, 32, 32, 32]
  const USTAR: seq<byte> := [117, 115, 116, 97, 114, 0]

  function Number(n: nat): seq<byte> {
    Padded(Digits(n), 11) + [0]
  }

  /** The header before its checksum is known: spaces stand in for it. */
  function Draft(name: seq<byte>, size: nat, mtime: nat): (h: seq<byte>)
    ensures |h| == BLOCK
  {
    var h := Overlay(Blank(BLOCK), name, 0);
    var h := Overlay(h, MODE, 100);
    var h := Overlay(h, NOBODY, 108);
    var h := Overlay(h, NOBODY, 116);
    var h := Overlay(h, Number(size), 124);
    var h := Overlay(h, Number(mtime), 136);
    var h := Overlay(h, SPACES, 148);
    var h := Overlay(h, [ZERO], 156);
    var h := Overlay(h, USTAR, 257);
    Overlay(h, [ZERO, ZERO], 263)
  }

  function ChecksumText(sum: nat): seq<byte> {
    Padded(Digits(sum), 6) + [0, 32]
  }

  function Header(name: seq<byte>, size: nat, mtime: nat): (h: seq<byte>)
    ensures |h| == BLOCK
  {
    var draft := Draft(name, size, mtime);
    Overlay(draft, ChecksumText(Sum(draft)), 148)
  }

  function Archive(name: seq<byte>, data: seq<byte>, mtime: nat): seq<byte> {
    Header(name, |data|, mtime) + (data + Blank(RoundUp(|data|) - |data|)) + Blank(1024)
  }

  /** Without one leading slash, and no more than a hundred characters. */
  function EntryName(fileName: string): string {
    var name := if fileName != "" && fileName[0] == '/' then fileName[1..] else fileName;
    if |name| > 100 then name[..100] else name
  }

  /** `utf8` is how text becomes bytes. */
  method Build(fileName: string, utf8: string -> seq<byte>, data: seq<byte>, mtime: nat) returns (tar: seq<byte>)
    ensures tar == Archive(utf8(EntryName(fileName)), data, mtime)
  {
    hide Overlay, Number, Sum, ChecksumText;
    var name := utf8(EntryName(fileName));
    var header := new byte[512](_ => 0);
    assert header[..] == Blank(BLOCK);
    WriteAt(header, name, 0);
    WriteAt(header, MODE, 100);
    WriteAt(header, NOBODY, 108);
    WriteAt(header, NOBODY, 116);
    WriteAt(header, Number(|data|), 124);
    WriteAt(header, Number(mtime), 136);
    WriteAt(header, SPACES, 148);
    WriteAt(header, [ZERO], 156);
    WriteAt(header, USTAR, 257);
    WriteAt(header, [ZERO, ZERO], 263);
    assert header[..] == Draft(name, |data|, mtime);
    var sum := Total(header);
    WriteAt(header, ChecksumText(sum), 148);
    var body := new byte[RoundUp(|data|)](i requires 0 <= i => if i < |data| then data[i] else 0);
    assert body[..] == data + Blank(RoundUp(|data|) - |data|);
    tar := header[..] + body[..] + Blank(1024);
  }

  // --- What the fields of a written header say ---

  lemma DraftTail(name: seq<byte>, size: nat, mtime: nat)
    ensures var h := Draft(name, size, mtime); h[156] == ZERO && h[148..156] == SPACES
  {
  }

  lemma {:induction false} SumBound(s: seq<byte>)
    ensures Sum(s) <= 255 * |s|
  {
    if s != [] {
      SumBound(s[..|s| - 1]);
    }
  }

  /** The checksum takes six octal digits, so it stays within its field. */
  lemma ChecksumFits(name: seq<byte>, size: nat, mtime: nat)
    ensures Sum(Draft(name, size, mtime)) <= 130560
    ensures |ChecksumText(Sum(Draft(name, size, mtime)))| == 8
  {
    var sum := Sum(Draft(name, size, mtime));
    SumBound(Draft(name, size, mtime));
    assert Pow8(6) == 262144;
    DigitsWidth(sum, 6);
    PaddedValue(sum, 6);
  }

  /** The written header is its draft with the checksum in place of the spaces. */
  lemma HeaderFields(name: seq<byte>, size: nat, mtime: nat)
    ensures var h, draft := Header(name, size, mtime), Draft(name, size, mtime);
      && h[156] == ZERO && h[124..136] == draft[124..136]
      && h[148..156] == ChecksumText(Sum(draft))
      && Overlay(h, SPACES, 148) == draft
  {
    hide Sum, ChecksumText, Draft;
    ChecksumFits(name, size, mtime);
    DraftTail(name, size, mtime);
    var h, draft := Header(name, size, mtime), Draft(name, size, mtime);
    forall i | 0 <= i < BLOCK
      ensures Overlay(h, SPACES, 148)[i] == draft[i]
    {
      if 148 <= i < 156 {
        assert draft[148..156][i - 148] == draft[i];
      }
    }
  }

  /** Any reader who adds up the header with spaces for the checksum finds the
      number stored in it. */
  lemma ChecksumVerifies(name: seq<byte>, size: nat, mtime: nat)
    ensures var h := Header(name, size, mtime);
      SizeOf(h[148..156]) == Some(Sum(Overlay(h, SPACES, 148)))
  {
    hide Sum, Overlay, Draft, Header;
    HeaderFields(name, size, mtime);
    var sum := Sum(Draft(name, size, mtime));
    ChecksumFits(name, size, mtime);
    PaddedValue(sum, 6);
    assert Padded(Digits(sum), 6) != [];
    ReadDigits(Padded(Digits(sum), 6), [0, 32]);
  }

  /** A field of digits, ended by a NUL or by the field itself, reads as their number. */
  lemma ReadDigits(d: seq<byte>, tail: seq<byte>)
    requires d != [] && forall k :: 0 <= k < |d| ==> IsDigit(d[k])
    requires tail == [] ||
      (tail[0] == 0 && forall k :: 0 <= k < |tail| ==> tail[k] < 128 && tail[k] != 10 && tail[k] != 13)
    ensures SizeOf(d + tail) == Some(Value(d))
  {
    hide Ascii, BeforeNul, Value, LeadingDigits, TrimStart, TrimEnd;
    AsciiSame(d + tail);
    TextBeforeNul(d, tail);
    DigitsLead(d);
    NothingToTrim(d);
  }

  /** Tab, the line breaks, and space. */
  const BLANKS: set<byte> := {9, 10, 11, 12, 13, 32}

  lemma {:induction false} TrimsFront(before: seq<byte>, text: seq<byte>)
    requires (forall k :: 0 <= k < |before| ==> before[k] in BLANKS) && text != [] && !IsSpace(text[0])
    ensures TrimStart(before + text) == text
    decreases |before|
  {
    if before == [] {
      assert before + text == text;
    } else {
      TrimsFront(before[1..], text);
      assert (before + text)[1..] == before[1..] + text;
    }
  }

  lemma {:induction false} TrimsBack(text: seq<byte>, behind: seq<byte>)
    requires (forall k :: 0 <= k < |behind| ==> behind[k] in BLANKS) && text != [] && !IsSpace(text[|text| - 1])
    ensures TrimEnd(text + behind) == text
    decreases |behind|
  {
    if behind == [] {
      assert text + behind == text;
    } else {
      TrimsBack(text, behind[..|behind| - 1]);
      assert (text + behind)[..|text + behind| - 1] == text + behind[..|behind| - 1];
    }
  }

  lemma SpacesAreText(before: seq<byte>, d: seq<byte>, behind: seq<byte>)
    requires forall k :: 0 <= k < |before| ==> before[k] in BLANKS
    requires forall k :: 0 <= k < |behind| ==> behind[k] in BLANKS
    requires forall k :: 0 <= k < |d| ==> IsDigit(d[k])
    ensures forall k :: 0 <= k < |before + d + behind| ==> 0 < (before + d + behind)[k] < 128
  {
  }

  lemma Trimmed(before: seq<byte>, d: seq<byte>, behind: seq<byte>)
    requires forall k :: 0 <= k < |before| ==> before[k] in BLANKS
    requires forall k :: 0 <= k < |behind| ==> behind[k] in BLANKS
    requires d != [] && forall k :: 0 <= k < |d| ==> IsDigit(d[k])
    ensures TrimEnd(TrimStart(before + d + behind)) == d
  {
    NoSpaces(d);
    assert before + d + behind == before + (d + behind) && (d + behind)[0] == d[0];
    TrimsFront(before, d + behind);
    TrimsBack(d, behind);
  }

  lemma TextOfField(text: seq<byte>, nuls: seq<byte>)
    requires (forall k :: 0 <= k < |text| ==> 0 < text[k] < 128) && AllZero(nuls)
    ensures BeforeNul(Ascii(text + nuls)) == text
  {
    hide Ascii, BeforeNul;
    AsciiSame(text + nuls);
    TextBeforeNul(text, nuls);
  }

  /** Blanks around the digits do not matter, and a field of NULs is a size of 0. */
  lemma ReadSpaced(before: seq<byte>, d: seq<byte>, behind: seq<byte>, nuls: seq<byte>)
    requires forall k :: 0 <= k < |before| ==> before[k] in BLANKS
    requires forall k :: 0 <= k < |behind| ==> behind[k] in BLANKS
    requires d != [] && (forall k :: 0 <= k < |d| ==> IsDigit(d[k])) && AllZero(nuls)
    ensures SizeOf(before + d + behind + nuls) == Some(Value(d))
    ensures SizeOf(nuls) == Some(0)
  {
    hide Ascii, BeforeNul, Value, LeadingDigits, TrimStart, TrimEnd, IsSpace, AllZero;
    SpacesAreText(before, d, behind);
    TextOfField(before + d + behind, nuls);
    Trimmed(before, d, behind);
    NotSigned(d);
    NoSize(nuls);
  }

  lemma NotSigned(d: seq<byte>)
    requires d != [] && forall k :: 0 <= k < |d| ==> IsDigit(d[k])
    ensures ParseOctal(d) == Some(Value(d))
  {
    hide Value, LeadingDigits;
    DigitsLead(d);
  }

  /** A NUL ends the text only if no line break follows it anywhere in the field. */
  lemma NulBeforeLineBreak(tail: seq<byte>)
    requires forall k :: 0 <= k < |tail| ==> tail[k] < 128
    ensures SizeOf([0, 10] + tail).None?
  {
    hide TrimEnd, Value;
    var field := [0, 10] + tail;
    AsciiSame(field);
    assert field[1] == 10;
    var text := BeforeNul(field);
    assert text[0] == 0;
    KeepsFirst(text);
    assert LeadingDigits(TrimEnd(text)) == [];
  }

  lemma {:induction false} KeepsFirst(text: seq<byte>)
    requires text != [] && !IsSpace(text[0])
    ensures TrimEnd(text) != [] && TrimEnd(text)[0] == text[0]
    decreases |text|
  {
    if IsSpace(text[|text| - 1]) {
      KeepsFirst(text[..|text| - 1]);
    }
  }

  lemma NoSpaces(d: seq<byte>)
    requires forall k :: 0 <= k < |d| ==> IsDigit(d[k])
    ensures forall k :: 0 <= k < |d| ==> !IsSpace(d[k])
  {
  }

  lemma NoSize(nuls: seq<byte>)
    requires AllZero(nuls)
    ensures SizeOf(nuls) == Some(0)
  {
    hide Ascii, BeforeNul;
    AsciiSame(nuls);
    TextBeforeNul([], nuls);
    assert [] + nuls == nuls;
    OneZero();
  }

  lemma OneZero()
    ensures ParseOctal([ZERO]) == Some(0)
  {
    var s: seq<byte> := [ZERO];
    assert s[1..] == [] && s[..0] == [];
    assert LeadingDigits(s) == s;
    assert Value(s) == 0;
  }

  /** The eighth bit of a byte does not count. */
  lemma HighBitsIgnored(a: seq<byte>, b: seq<byte>)
    requires |a| == |b| && forall k :: 0 <= k < |a| ==> a[k] % 128 == b[k] % 128
    ensures SizeOf(a) == SizeOf(b)
  {
    assert Ascii(a) == Ascii(b);
  }

  /** Digits may carry a sign. */
  lemma SignedSize(d: seq<byte>)
    requires d != [] && forall k :: 0 <= k < |d| ==> IsDigit(d[k])
    ensures var n: int := Value(d); SizeOf([MINUS] + d) == Some(-n) && SizeOf([PLUS] + d) == Some(n)
  {
    SignedText(MINUS, d);
    SignedText(PLUS, d);
  }

  lemma SignedText(sign: byte, d: seq<byte>)
    requires sign == MINUS || sign == PLUS
    requires d != [] && forall k :: 0 <= k < |d| ==> IsDigit(d[k])
    ensures var n: int := Value(d); SizeOf([sign] + d) == Some(if sign == MINUS then -n else n)
  {
    hide Ascii, BeforeNul, Value, LeadingDigits, TrimStart, TrimEnd, IsSpace;
    var text := [sign] + d;
    NoSpaces(d);
    SignIsText(sign);
    AsciiSame(text);
    assert text + [] == text && text[1..] == d && text[|text| - 1] == d[|d| - 1];
    TextBeforeNul(text, []);
    NothingToTrim(text);
    DigitsLead(d);
  }

  lemma SignIsText(sign: byte)
    requires sign == MINUS || sign == PLUS
    ensures 0 < sign < 128 && !IsSpace(sign)
  {
  }

  /** The size the header gives: the first twelve digits of the length. */
  function Readable(n: nat): seq<byte> {
    var digits := Padded(Digits(n), 11);
    if |digits| <= 12 then digits else digits[..12]
  }

  lemma DraftSize(name: seq<byte>, size: nat, mtime: nat)
    ensures var digits := Padded(Digits(size), 11);
      Draft(name, size, mtime)[124..136] == (if |digits| == 11 then digits + [0] else Readable(size))
  {
    hide Digits, Padded;
    PaddedValue(size, 11);
    var draft, text := Draft(name, size, mtime), Number(size);
    assert forall i :: 124 <= i < 136 ==> draft[i] == text[i - 124];
  }

  lemma ReadableIsDigits(n: nat)
    ensures Readable(n) != [] && forall k :: 0 <= k < |Readable(n)| ==> IsDigit(Readable(n)[k])
  {
    PaddedValue(n, 11);
  }

  lemma HeaderSize(name: seq<byte>, size: nat, mtime: nat)
    ensures forall k :: 0 <= k < |Readable(size)| ==> IsDigit(Readable(size)[k])
    ensures SizeOf(Header(name, size, mtime)[124..136]) == Some(Value(Readable(size)))
  {
    hide SizeOf, Draft, Header, Overlay;
    HeaderFields(name, size, mtime);
    DraftSize(name, size, mtime);
    ReadableIsDigits(size);
    PaddedValue(size, 11);
    ReadDigits(Readable(size), if |Padded(Digits(size), 11)| == 11 then [0] else []);
    assert Readable(size) + [] == Readable(size);
  }

  /** Twelve octal digits are enough exactly below 8^12. */
  lemma ReadableIsExact(n: nat)
    ensures forall k :: 0 <= k < |Readable(n)| ==> IsDigit(Readable(n)[k])
    ensures Value(Readable(n)) <= n
    ensures Value(Readable(n)) == n <==> n < Pow8(12)
  {
    ReadableIsDigits(n);
    PaddedValue(n, 11);
    DigitsWidth(n, 12);
    var digits := Padded(Digits(n), 11);
    if |digits| > 12 {
      assert Pow8(12) > 0;
      ProperPrefixIsSmaller(digits, 12);
    }
  }

  // --- What a written header says, field by field ---

  lemma DraftFields(name: seq<byte>, size: nat, mtime: nat)
    requires |name| <= 100
    ensures var h := Draft(name, size, mtime);
      && (forall i :: 0 <= i < 100 ==> h[i] == if i < |name| then name[i] else 0)
      && h[100..108] == MODE && h[108..116] == NOBODY && h[116..124] == NOBODY
      && h[257..263] == USTAR && h[263..265] == [ZERO, ZERO]
  {
    var h := Draft(name, size, mtime);
    assert forall i :: 100 <= i < 108 ==> h[i] == MODE[i - 100];
    assert forall i :: 108 <= i < 116 ==> h[i] == NOBODY[i - 108];
    assert forall i :: 116 <= i < 124 ==> h[i] == NOBODY[i - 116];
  }

  lemma DraftTime(name: seq<byte>, size: nat, mtime: nat)
    requires mtime < Pow8(11)
    ensures Draft(name, size, mtime)[136..148] == Padded(Digits(mtime), 11) + [0]
  {
    hide Digits, Padded;
    PaddedValue(mtime, 11);
    DigitsWidth(mtime, 11);
    var draft, text := Draft(name, size, mtime), Number(mtime);
    assert forall i :: 136 <= i < 148 ==> draft[i] == text[i - 136];
  }

  lemma FieldDigits()
    ensures MODE == Padded(Digits(420), 7) + [0] && NOBODY == Padded(Digits(0), 7) + [0]
  {
    assert Digits(6) == [54];
    assert Digits(52) == [54, 52];
    assert Digits(420) == [54, 52, 52];
    assert Padded(Digits(420), 7) == [48, 48, 48, 48, 54, 52, 52];
    assert Padded(Digits(0), 7) == [48, 48, 48, 48, 48, 48, 48];
  }

  lemma FieldNumbers()
    ensures SizeOf(MODE) == Some(420) && SizeOf(NOBODY) == Some(0)
  {
    hide SizeOf, Digits, Padded;
    FieldDigits();
    PaddedValue(420, 7);
    PaddedValue(0, 7);
    ReadDigits(Padded(Digits(420), 7), [0]);
    ReadDigits(Padded(Digits(0), 7), [0]);
  }

  /** A name of at most a hundred bytes, padded with NULs; mode 644 (octal) of user and group 0;
      the time, while it fits; a regular file; and the ustar magic with version 00. */
  lemma HeaderSays(name: seq<byte>, size: nat, mtime: nat)
    requires |name| <= 100
    ensures var h := Header(name, size, mtime);
      && (forall i :: 0 <= i < 100 ==> h[i] == if i < |name| then name[i] else 0)
      && SizeOf(h[100..108]) == Some(420) && SizeOf(h[108..116]) == Some(0) && SizeOf(h[116..124]) == Some(0)
      && (mtime < Pow8(11) ==> SizeOf(h[136..148]) == Some(mtime))
      && h[156] == 48 && h[257..263] == [117, 115, 116, 97, 114, 0] && h[263..265] == [48, 48]
  {
    hide SizeOf, Sum, ChecksumText, Draft;
    ChecksumFits(name, size, mtime);
    DraftFields(name, size, mtime);
    DraftTail(name, size, mtime);
    FieldNumbers();
    var h, draft := Header(name, size, mtime), Draft(name, size, mtime);
    assert forall i :: (0 <= i < 148 || 156 <= i < 512) ==> h[i] == draft[i];
    assert h[100..108] == draft[100..108] && h[108..116] == draft[108..116] && h[116..124] == draft[116..124];
    assert h[136..148] == draft[136..148] && h[257..263] == draft[257..263] && h[263..265] == draft[263..265];
    if mtime < Pow8(11) {
      DraftTime(name, size, mtime);
      PaddedValue(mtime, 11);
      ReadDigits(Padded(Digits(mtime), 11), [0]);
    }
  }

  /** The name a file is stored under: one slash in front of it goes, and a hundred
      characters stay. */
  lemma NameStored(name: string)
    ensures var stored := EntryName(['/'] + name);
      stored <= name && (|stored| == 100 || (|stored| < 100 && stored == name))
    ensures name == "" || name[0] != '/' ==> EntryName(name) == EntryName(['/'] + name)
  {
    assert (['/'] + name)[1..] == name;
  }

  // --- The round trip ---

  lemma ArchiveLayout(name: seq<byte>, data: seq<byte>, mtime: nat)
    ensures var tar := Archive(name, data, mtime);
      && |tar| == BLOCK + RoundUp(|data|) + 1024 && |tar| % BLOCK == 0
      && tar[..BLOCK] == Header(name, |data|, mtime) && tar[BLOCK..BLOCK + |data|] == data
  {
    hide Header;
    var tar := Archive(name, data, mtime);
    assert tar[..BLOCK] == Header(name, |data|, mtime);
    assert forall i :: 0 <= i < |data| ==> tar[BLOCK + i] == data[i];
    assert tar[BLOCK..BLOCK + |data|] == data;
  }

  lemma SubarrayOf(a: seq<byte>, b: seq<byte>, c: seq<byte>, start: nat, end: nat)
    requires start <= end <= |b|
    ensures Subarray(a + b + c, |a| + start, |a| + end) == b[start..end]
  {
  }

  /** The reader standing at the archive takes the data up to the size the header can tell. */
  lemma ReadsArchive(front: seq<byte>, name: seq<byte>, data: seq<byte>, mtime: nat)
    ensures forall k :: 0 <= k < |Readable(|data|)| ==> IsDigit(Readable(|data|)[k])
    ensures Value(Readable(|data|)) <= |data|
    ensures Step(front + Archive(name, data, mtime), |front|) == Done(File(data[..Value(Readable(|data|))]))
  {
    hide SizeOf, Archive, Header, Value, Readable, Subarray, Step;
    ArchiveLayout(name, data, mtime);
    HeaderSize(name, |data|, mtime);
    ReadableIsExact(|data|);
    var archive, size := Archive(name, data, mtime), Value(Readable(|data|));
    assert front + archive + [] == front + archive;
    SubarrayOf(front, archive, [], 0, BLOCK);
    SubarrayOf(front, archive, [], BLOCK, BLOCK + size);
    TakesFile(front + archive, |front|, name, |data|, mtime, size);
    SlicePrefix(archive, BLOCK, BLOCK + |data|, size);
  }

  lemma SlicePrefix(s: seq<byte>, start: nat, end: nat, n: nat)
    requires start <= end <= |s| && start + n <= end
    ensures s[start..end][..n] == s[start..start + n]
  {
  }

  lemma TakesFile(tar: seq<byte>, offset: nat, name: seq<byte>, length: nat, mtime: nat, size: nat)
    requires offset + BLOCK <= |tar| && HeaderAt(tar, offset) == Header(name, length, mtime)
    requires SizeOf(Header(name, length, mtime)[124..136]) == Some(size)
    ensures Step(tar, offset) == Done(File(Subarray(tar, offset + BLOCK, offset + BLOCK + size)))
  {
    hide SizeOf, Subarray, Header, HeaderAt, TypeOf, AllZero;
    HeaderIsFile(name, length, mtime);
  }

  lemma HeaderIsFile(name: seq<byte>, length: nat, mtime: nat)
    ensures var h := Header(name, length, mtime);
      TypeOf(h) == ZERO && !AllZero(h) && Subarray(h, 124, 136) == h[124..136]
  {
    hide Header, Draft, Sum, ChecksumText, Overlay;
    HeaderFields(name, length, mtime);
    var h := Header(name, length, mtime);
    assert h[156] != 0;
  }

  /** A header of the kind a reader skips, with the payload its size announces. */
  ghost predicate Skippable(entry: seq<byte>) {
    && |entry| >= BLOCK
    && TypeOf(entry[..BLOCK]) in {120, 103, 76, 75}
    && SizeOf(entry[124..136]).Some? && SizeOf(entry[124..136]).value > -512
    && |entry| == BLOCK + RoundUp(SizeOf(entry[124..136]).value)
  }

  lemma SkipOne(front: seq<byte>, entry: seq<byte>, rest: seq<byte>)
    requires Skippable(entry)
    ensures Step(front + entry + rest, |front|) == At(|front| + |entry|)
  {
    hide SizeOf, Subarray;
    var header := entry[..BLOCK];
    SubarrayOf(front, entry, rest, 0, BLOCK);
    assert [] + header + [] == header;
    SubarrayOf([], header, [], 124, 136);
    assert header[124..136] == entry[124..136];
    assert header[156] != 0;
  }

  lemma {:induction false} SkipAll(entries: seq<seq<byte>>, rest: seq<byte>)
    requires forall e :: e in entries ==> Skippable(e)
    ensures After(Concat(entries) + rest, At(0), |entries|) == At(|Concat(entries)|)
    decreases |entries|
  {
    hide Step, Skippable;
    if entries != [] {
      var front, last := entries[..|entries| - 1], entries[|entries| - 1];
      var tar := Concat(entries) + rest;
      assert last in entries && forall e :: e in front ==> e in entries;
      assert tar == Concat(front) + (last + rest) && tar == Concat(front) + last + rest;
      SkipAll(front, last + rest);
      SkipOne(Concat(front), last, rest);
      AfterAfter(tar, At(0), |front|, 1);
      assert After(tar, At(|Concat(front)|), 1) == Step(tar, |Concat(front)|);
    }
  }

  /** The file comes back whole, behind any number of extended headers, exactly when
      it is shorter than 8^12 bytes: eight times what the size field is meant for,
      because the twelfth digit takes the place of the NUL that ends the field. */
  lemma RoundTrip(entries: seq<seq<byte>>, name: seq<byte>, data: seq<byte>, mtime: nat)
    requires forall e :: e in entries ==> Skippable(e)
    ensures var tar := Concat(entries) + Archive(name, data, mtime);
      Ends(tar) && (Extracts(tar, File(data)) <==> |data| < Pow8(12))
  {
    hide Step, Archive, Value, Readable, Skippable, Concat;
    var front := Concat(entries);
    var tar := front + Archive(name, data, mtime);
    SkipAll(entries, Archive(name, data, mtime));
    ReadsArchive(front, name, data, mtime);
    ReadableIsExact(|data|);
    AfterAfter(tar, At(0), |entries|, 1);
    var found := File(data[..Value(Readable(|data|))]);
    assert After(tar, At(|front|), 1) == Step(tar, |front|);
    assert After(tar, At(0), |entries| + 1) == Done(found);
    if Extracts(tar, File(data)) {
      OneAnswer(tar, found, File(data));
    }
    assert data[..|data|] == data;
  }

  // --- What is refused ---

  lemma AnswerBehind(entries: seq<seq<byte>>, rest: seq<byte>, result: Result)
    requires forall e :: e in entries ==> Skippable(e)
    requires Step(Concat(entries) + rest, |Concat(entries)|) == Done(result)
    ensures Extracts(Concat(entries) + rest, result)
  {
    hide Step, Skippable, Concat;
    var tar := Concat(entries) + rest;
    SkipAll(entries, rest);
    AfterAfter(tar, At(0), |entries|, 1);
    assert After(tar, At(|Concat(entries)|), 1) == Step(tar, |Concat(entries)|);
    assert After(tar, At(0), |entries| + 1) == Done(result);
  }

  lemma HeaderBehind(front: seq<byte>, header: seq<byte>, rest: seq<byte>)
    requires |header| == BLOCK
    ensures HeaderAt(front + (header + rest), |front|) == header
    ensures header[156] != 0 ==> TypeOf(header) == header[156] && !AllZero(header)
  {
    assert front + (header + rest) == front + header + rest;
    SubarrayOf(front, header, rest, 0, BLOCK);
    assert header[0..BLOCK] == header;
  }

  /** Behind any extended headers the first other member decides: a directory (type 5) or
      a link (types 1 and 2) is refused, even if a file follows; a block of zeros, or less
      than a block, means there is no file. */
  lemma FirstMemberDecides(entries: seq<seq<byte>>, header: seq<byte>, rest: seq<byte>)
    requires (forall e :: e in entries ==> Skippable(e)) && |header| == BLOCK
    ensures var tar := Concat(entries) + (header + rest);
      && (header[156] == 53 ==> Extracts(tar, Directory))
      && (header[156] == 49 || header[156] == 50 ==> Extracts(tar, Link))
      && (AllZero(header) ==> Extracts(tar, NoFile))
  {
    hide SizeOf, Subarray, Concat, Skippable, AllZero, Extracts;
    var front := Concat(entries);
    HeaderBehind(front, header, rest);
    if header[156] == 53 {
      AnswerBehind(entries, header + rest, Directory);
    }
    if header[156] == 49 || header[156] == 50 {
      AnswerBehind(entries, header + rest, Link);
    }
    if AllZero(header) {
      AnswerBehind(entries, header + rest, NoFile);
    }
  }

  lemma NothingBehind(entries: seq<seq<byte>>, rest: seq<byte>)
    requires (forall e :: e in entries ==> Skippable(e)) && |rest| < BLOCK
    ensures Extracts(Concat(entries) + rest, NoFile)
  {
    hide Concat, Skippable, Extracts;
    AnswerBehind(entries, rest, NoFile);
  }

  /** A regular file (types 0 and 7, or a NUL) is taken, as many bytes as its size says. */
  lemma FileIsTaken(entries: seq<seq<byte>>, header: seq<byte>, rest: seq<byte>, size: nat)
    requires (forall e :: e in entries ==> Skippable(e)) && |header| == BLOCK && !AllZero(header)
    requires header[156] == 48 || header[156] == 55 || header[156] == 0
    requires SizeOf(header[124..136]) == Some(size) && size <= |rest|
    ensures Extracts(Concat(entries) + (header + rest), File(rest[..size]))
  {
    hide SizeOf, Subarray, Concat, Skippable, AllZero, Extracts;
    var front := Concat(entries);
    var tar := front + (header + rest);
    HeaderBehind(front, header, rest);
    assert tar == (front + header) + rest + [] && [] + header + [] == header;
    SubarrayOf([], header, [], 124, 136);
    SubarrayOf(front + header, rest, [], 0, size);
    assert rest[0..size] == rest[..size];
    AnswerBehind(entries, header + rest, File(rest[..size]));
  }
}
