/** Cutting text at a separator, all at once or as it arrives. */
module Splitting {

  datatype Pieces = Pieces(whole: seq<string>, rest: string)

  predicate EndsWith(s: string, sep: string) {
    |s| >= |sep| && s[|s| - |sep|..] == sep
  }

  /** One character more. */
  function Push(p: Pieces, c: char, sep: string): Pieces
    requires sep != ""
  {
    var rest := p.rest + [c];
    if EndsWith(rest, sep) then Pieces(p.whole + [rest[..|rest| - |sep|]], "") else Pieces(p.whole, rest)
  }

  /** The complete pieces before each separator, leftmost first, and what is left. */
  function Cut(s: string, sep: string): Pieces
    requires sep != ""
  {
    if s == "" then Pieces([], "") else Push(Cut(s[..|s| - 1], sep), s[|s| - 1], sep)
  }

  function After(pieces: seq<string>, p: Pieces): Pieces {
    Pieces(pieces + p.whole, p.rest)
  }

  function Rejoin(pieces: seq<string>, sep: string): string {
    if pieces == [] then ""
    else Rejoin(pieces[..|pieces| - 1], sep) + pieces[|pieces| - 1] + sep
  }

  predicate OccursAt(s: string, sep: string, i: nat) {
    i + |sep| <= |s| && s[i..i + |sep|] == sep
  }

  lemma AfterNothing(p: Pieces)
    ensures After([], p) == p
  {
  }

  lemma AfterAfter(pieces: seq<string>, piece: string, p: Pieces)
    ensures After(pieces, After([piece], p)) == After(pieces + [piece], p)
  {
    assert pieces + ([piece] + p.whole) == (pieces + [piece]) + p.whole;
  }

  lemma AfterAll(before: seq<string>, pieces: seq<string>, rest: string)
    ensures After(before, After(pieces, Pieces([], rest))) == Pieces(before + pieces, rest)
  {
    assert pieces + [] == pieces;
  }

  /** `i` is the first place the separator is at, or -1 where there is none. */
  ghost predicate FirstAt(s: string, sep: string, i: int) {
    if i < 0 then i == -1 && forall j: nat :: !OccursAt(s, sep, j)
    else OccursAt(s, sep, i) && forall j: nat :: j < i ==> !OccursAt(s, sep, j)
  }

  lemma CutPush(s: string, c: char, sep: string)
    requires sep != ""
    ensures Cut(s + [c], sep) == Push(Cut(s, sep), c, sep)
  {
    assert (s + [c])[..|s|] == s;
  }

  lemma PushAfter(pieces: seq<string>, p: Pieces, c: char, sep: string)
    requires sep != ""
    ensures Push(After(pieces, p), c, sep) == After(pieces, Push(p, c, sep))
  {
    assert forall piece: string :: (pieces + p.whole) + [piece] == pieces + (p.whole + [piece]);
  }

  lemma {:induction false} RestIsUncut(s: string, sep: string)
    requires sep != ""
    ensures Cut(Cut(s, sep).rest, sep) == Pieces([], Cut(s, sep).rest)
  {
    if s != "" {
      var kept := Cut(s[..|s| - 1], sep).rest;
      RestIsUncut(s[..|s| - 1], sep);
      CutPush(kept, s[|s| - 1], sep);
    }
  }

  /** Text arriving in two parts is cut where the whole is. */
  lemma {:induction false} CutAsItArrives(a: string, b: string, sep: string)
    requires sep != ""
    ensures Cut(a + b, sep) == After(Cut(a, sep).whole, Cut(Cut(a, sep).rest + b, sep))
    decreases |b|
  {
    hide Push;
    var kept := Cut(a, sep).rest;
    if b == "" {
      assert a + b == a && kept + b == kept;
      RestIsUncut(a, sep);
    } else {
      var init, c := b[..|b| - 1], b[|b| - 1];
      CutAsItArrives(a, init, sep);
      assert a + b == (a + init) + [c] && kept + b == (kept + init) + [c];
      hide Cut, After;
      CutPush(a + init, c, sep);
      CutPush(kept + init, c, sep);
      PushAfter(Cut(a, sep).whole, Cut(kept + init, sep), c, sep);
    }
  }

  lemma OccursInLonger(short: string, long: string, sep: string, i: nat)
    requires short <= long
    ensures OccursAt(short, sep, i) ==> OccursAt(long, sep, i)
  {
    if OccursAt(short, sep, i) {
      assert short[i..i + |sep|] == long[i..i + |sep|];
    }
  }

  lemma EndIsOccurrence(s: string, sep: string)
    ensures EndsWith(s, sep) <==> |s| >= |sep| && OccursAt(s, sep, |s| - |sep|)
  {
    if |s| >= |sep| {
      assert s[|s| - |sep|..] == s[|s| - |sep|..|s| - |sep| + |sep|];
    }
  }

  lemma {:induction false} NothingToCut(s: string, sep: string)
    requires sep != "" && forall i: nat :: !OccursAt(s, sep, i)
    ensures Cut(s, sep) == Pieces([], s)
  {
    hide OccursAt, EndsWith, Cut;
    if s == "" {
      EmptyRejoins(sep);
    } else {
      var before, c := s[..|s| - 1], s[|s| - 1];
      assert before + [c] == s;
      forall i: nat
        ensures !OccursAt(before, sep, i)
      {
        OccursInLonger(before, s, sep, i);
      }
      NothingToCut(before, sep);
      CutPush(before, c, sep);
      EndIsOccurrence(s, sep);
    }
  }

  /** The first separator ends the first piece. */
  lemma FirstCut(s: string, sep: string, i: nat)
    requires sep != "" && FirstAt(s, sep, i)
    ensures i + |sep| <= |s| && Cut(s, sep) == After([s[..i]], Cut(s[i + |sep|..], sep))
  {
    hide OccursAt, FirstAt, Cut;
    HeadIsOnePiece(s, sep, i);
    var head, tail := s[..i + |sep|], s[i + |sep|..];
    assert s == head + tail && "" + tail == tail;
    CutAsItArrives(head, tail, sep);
  }

  lemma NoMoreCuts(s: string, sep: string, i: int)
    requires sep != "" && FirstAt(s, sep, i) && i < 0
    ensures Cut(s, sep) == Pieces([], s)
  {
    NothingToCut(s, sep);
  }

  lemma HeadIsOnePiece(s: string, sep: string, i: nat)
    requires sep != "" && FirstAt(s, sep, i)
    ensures i + |sep| <= |s| && Cut(s[..i + |sep|], sep) == Pieces([s[..i]], "")
  {
    var almost, c := s[..i + |sep| - 1], s[i + |sep| - 1];
    forall j: nat
      ensures !OccursAt(almost, sep, j)
    {
      NotYet(s, sep, i, j);
    }
    hide OccursAt, Cut;
    NothingToCut(almost, sep);
    CutPush(almost, c, sep);
    SeparatorEndsPiece(s, sep, i);
  }

  lemma NotYet(s: string, sep: string, i: nat, j: nat)
    requires sep != "" && i + |sep| <= |s| && forall k: nat :: k < i ==> !OccursAt(s, sep, k)
    ensures !OccursAt(s[..i + |sep| - 1], sep, j)
  {
    hide OccursAt;
    OccursInLonger(s[..i + |sep| - 1], s, sep, j);
    TooShort(s[..i + |sep| - 1], sep, j);
  }

  lemma TooShort(s: string, sep: string, j: nat)
    ensures j + |sep| > |s| ==> !OccursAt(s, sep, j)
  {
  }

  lemma SeparatorEndsPiece(s: string, sep: string, i: nat)
    requires sep != "" && OccursAt(s, sep, i)
    ensures s[..i + |sep|] == s[..i + |sep| - 1] + [s[i + |sep| - 1]]
    ensures Push(Pieces([], s[..i + |sep| - 1]), s[i + |sep| - 1], sep) == Pieces([s[..i]], "")
  {
    var head := s[..i + |sep|];
    assert head == s[..i + |sep| - 1] + [s[i + |sep| - 1]];
    assert head[|head| - |sep|..] == s[i..i + |sep|];
    assert head[..|head| - |sep|] == s[..i];
  }

  lemma RejoinOneMore(pieces: seq<string>, piece: string, sep: string)
    ensures Rejoin(pieces + [piece], sep) == Rejoin(pieces, sep) + piece + sep
  {
    assert (pieces + [piece])[..|pieces|] == pieces;
  }

  /** Putting the pieces back gives the text. */
  lemma {:induction false} CutRejoins(s: string, sep: string)
    requires sep != ""
    ensures s == Rejoin(Cut(s, sep).whole, sep) + Cut(s, sep).rest
  {
    hide Cut, Rejoin, Push;
    if s == "" {
      EmptyRejoins(sep);
    } else {
      var init, c := s[..|s| - 1], s[|s| - 1];
      CutRejoins(init, sep);
      PushRejoins(Cut(init, sep), c, sep);
      assert s == init + [c];
      CutPush(init, c, sep);
    }
  }

  lemma PushRejoins(p: Pieces, c: char, sep: string)
    requires sep != ""
    ensures var q := Push(p, c, sep); Rejoin(q.whole, sep) + q.rest == Rejoin(p.whole, sep) + p.rest + [c]
  {
    hide Rejoin;
    var rest := p.rest + [c];
    if EndsWith(rest, sep) {
      var piece := rest[..|rest| - |sep|];
      RejoinOneMore(p.whole, piece, sep);
      assert rest == piece + sep;
    }
  }

  lemma EmptyRejoins(sep: string)
    requires sep != ""
    ensures Rejoin([], sep) == "" && Cut("", sep) == Pieces([], "")
  {
  }

  method IndexOf(s: string, sep: string) returns (i: int)
    ensures FirstAt(s, sep, i)
  {
    i := 0;
    while i + |sep| <= |s|
      invariant 0 <= i && forall j: nat :: j < i ==> !OccursAt(s, sep, j)
      decreases |s| - i
    {
      if s[i..i + |sep|] == sep {
        return;
      }
      i := i + 1;
    }
    i := -1;
  }

  // --- Separators of one character ---

  const NL: string := ['\n']

  ghost predicate Free(s: string, c: char) {
    c !in s
  }

  lemma CutFree(piece: string, c: char)
    requires Free(piece, c)
    ensures Cut(piece, [c]) == Pieces([], piece) && Cut(piece + [c], [c]) == Pieces([piece], "")
  {
    hide Cut, OccursAt, Free;
    FreeHasNone(piece, c);
    NothingToCut(piece, [c]);
    CutPush(piece, c, [c]);
    EndOfPiece(piece, c);
  }

  lemma FreeHasNone(piece: string, c: char)
    requires Free(piece, c)
    ensures forall i: nat :: !OccursAt(piece, [c], i)
  {
    forall i: nat
      ensures !OccursAt(piece, [c], i)
    {
      assert i < |piece| ==> piece[i] in piece && piece[i..i + 1] == [piece[i]];
    }
  }

  lemma EndOfPiece(piece: string, c: char)
    ensures Push(Pieces([], piece), c, [c]) == Pieces([piece], "")
  {
    var ended := piece + [c];
    assert ended[|ended| - 1..] == [c] && ended[..|ended| - 1] == piece;
  }

  lemma {:induction false} PiecesAreFree(s: string, c: char)
    ensures (forall p :: p in Cut(s, [c]).whole ==> Free(p, c)) && Free(Cut(s, [c]).rest, c)
  {
    if s != "" {
      PiecesAreFree(s[..|s| - 1], c);
      var rest := Cut(s[..|s| - 1], [c]).rest + [s[|s| - 1]];
      assert EndsWith(rest, [c]) <==> s[|s| - 1] == c by {
        assert rest[|rest| - 1..] == [s[|s| - 1]];
      }
    }
  }

  /** Cutting is the only way to take the text apart into pieces without the separator. */
  lemma PiecesAreUnique(pieces: seq<string>, rest: string, c: char)
    requires (forall p :: p in pieces ==> Free(p, c)) && Free(rest, c)
    ensures Cut(Rejoin(pieces, [c]) + rest, [c]) == Pieces(pieces, rest)
  {
    hide Cut, Rejoin;
    WholePieces(pieces, c);
    CutAsItArrives(Rejoin(pieces, [c]), rest, [c]);
    CutFree(rest, c);
    assert "" + rest == rest && pieces + [] == pieces;
  }

  lemma {:induction false} WholePieces(pieces: seq<string>, c: char)
    requires forall p :: p in pieces ==> Free(p, c)
    ensures Cut(Rejoin(pieces, [c]), [c]) == Pieces(pieces, "")
  {
    hide Cut, Rejoin;
    if pieces == [] {
      EmptyRejoins([c]);
    } else {
      var before, last := pieces[..|pieces| - 1], pieces[|pieces| - 1];
      WholePieces(before, c);
      RejoinOneMore(before, last, [c]);
      assert before + [last] == pieces;
      assert Rejoin(pieces, [c]) == Rejoin(before, [c]) + (last + [c]) && "" + (last + [c]) == last + [c];
      CutAsItArrives(Rejoin(before, [c]), last + [c], [c]);
      CutFree(last, c);
    }
  }
}
