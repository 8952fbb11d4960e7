/** Container logs on their way to a client: cut into lines, sent as events, and
    taken apart again by the dashboard and by the command-line client. */
module LogStream {
  import opened Wrappers
  import opened Splitting

  const BLANK_LINE := "\n\n"
  const DATA := "data: "

  // --- What each stage means ---

  /** Without one carriage return at the end. */
  function StripCr(line: string): string {
    if line != "" && line[|line| - 1] == '\r' then line[..|line| - 1] else line
  }

  /** The lines worth sending: stripped, and not empty. */
  function Emitted(pieces: seq<string>): seq<string> {
    if pieces == [] then []
    else
      var before, line := Emitted(pieces[..|pieces| - 1]), StripCr(pieces[|pieces| - 1]);
      if line != "" then before + [line] else before
  }

  /** The lines of a container's whole output; the last needs no newline. */
  function LogLines(output: string): seq<string> {
    Emitted(Cut(output, NL).whole + [Cut(output, NL).rest])
  }

  function NewlinesToSpaces(line: string): string {
    seq(|line|, k requires 0 <= k < |line| => if line[k] == '\n' then ' ' else line[k])
  }

  function Event(line: string): string {
    DATA + NewlinesToSpaces(line) + BLANK_LINE
  }

  function EventText(lines: seq<string>): string {
    if lines == [] then "" else EventText(lines[..|lines| - 1]) + Event(lines[|lines| - 1])
  }

  predicate IsData(line: string) {
    DATA <= line
  }

  /** What follows `data: ` on the lines that start with it. */
  function DataOf(lines: seq<string>): seq<string> {
    if lines == [] then []
    else
      var before, line := DataOf(lines[..|lines| - 1]), lines[|lines| - 1];
      if IsData(line) then before + [line[|DATA|..]] else before
  }

  function Joined(lines: seq<string>): string {
    if lines == [] then ""
    else if |lines| == 1 then lines[0]
    else Joined(lines[..|lines| - 1]) + NL + lines[|lines| - 1]
  }

  /** The data of one event, its lines put together. */
  function Payload(event: string): string {
    Joined(DataOf(Cut(event, NL).whole + [Cut(event, NL).rest]))
  }

  function Payloads(events: seq<string>): seq<string> {
    if events == [] then []
    else
      var before, data := Payloads(events[..|events| - 1]), Payload(events[|events| - 1]);
      if data != "" then before + [data] else before
  }

  /** What the dashboard makes of a text, and what the command-line client does. */
  function DashboardReads(text: string): seq<string> {
    Payloads(Cut(text, BLANK_LINE).whole)
  }

  function CliReads(text: string): seq<string> {
    DataOf(Cut(text, NL).whole)
  }

  // --- Each distributes over its input ---

  lemma {:induction false} EmittedAdds(a: seq<string>, b: seq<string>)
    ensures Emitted(a + b) == Emitted(a) + Emitted(b)
    decreases |b|
  {
    if b == [] {
      assert a + b == a;
    } else {
      EmittedAdds(a, b[..|b| - 1]);
      assert (a + b)[..|a + b| - 1] == a + b[..|b| - 1];
    }
  }

  lemma {:induction false} DataOfAdds(a: seq<string>, b: seq<string>)
    ensures DataOf(a + b) == DataOf(a) + DataOf(b)
    decreases |b|
  {
    if b == [] {
      assert a + b == a;
    } else {
      DataOfAdds(a, b[..|b| - 1]);
      assert (a + b)[..|a + b| - 1] == a + b[..|b| - 1];
    }
  }

  lemma {:induction false} PayloadsAdd(a: seq<string>, b: seq<string>)
    ensures Payloads(a + b) == Payloads(a) + Payloads(b)
    decreases |b|
  {
    hide Payload;
    if b == [] {
      assert a + b == a;
    } else {
      PayloadsAdd(a, b[..|b| - 1]);
      assert (a + b)[..|a + b| - 1] == a + b[..|b| - 1];
    }
  }

  // --- The node agent's splitter ---

  class LineSplitter {
    var buf: string
    /** The lines handed to the callback. */
    var lines: seq<string>
    ghost var input: string

    ghost predicate Valid()
      reads this
    {
      buf == Cut(input, NL).rest && lines == Emitted(Cut(input, NL).whole)
    }

    constructor ()
      ensures Valid() && input == ""
    {
      buf, lines, input := "", [], "";
    }

    /** However the output is chopped up, the same lines come out. */
    method Write(chunk: string)
      requires Valid()
      modifies this
      ensures Valid() && input == old(input) + chunk
    {
      hide Cut, Emitted, StripCr, FirstAt, After;
      CutAsItArrives(input, chunk, NL);
      ghost var arrived := Cut(buf + chunk, NL);
      ghost var before := Cut(input, NL).whole;
      ghost var seen: seq<string> := [];
      AfterNothing(arrived);
      EmittedAdds(before, []);
      buf := buf + chunk;
      assert before + [] == before;
      var i := IndexOf(buf, NL);
      while i >= 0
        invariant FirstAt(buf, NL, i)
        invariant arrived == After(seen, Cut(buf, NL)) && lines == Emitted(before + seen)
        invariant input == old(input)
        decreases |buf|
      {
        FirstCut(buf, NL, i);
        AfterAfter(seen, buf[..i], Cut(buf[i + 1..], NL));
        OneEmitted(before + seen, buf[..i]);
        assert (before + seen) + [buf[..i]] == before + (seen + [buf[..i]]);
        seen := seen + [buf[..i]];
        var line := StripCr(buf[..i]);
        buf := buf[i + 1..];
        if |line| > 0 {
          lines := lines + [line];
        }
        i := IndexOf(buf, NL);
      }
      NoMoreCuts(buf, NL, i);
      AfterAll(before, seen, buf);
      input := input + chunk;
    }

    /** At the end the last line goes out, newline or not. */
    method Final()
      requires Valid()
      modifies this
      ensures lines == LogLines(input) && buf == "" && input == old(input)
    {
      OneEmitted(Cut(input, NL).whole, buf);
      var line := StripCr(buf);
      if |line| > 0 {
        lines := lines + [line];
      }
      buf := "";
    }
  }

  lemma OneEmitted(pieces: seq<string>, piece: string)
    ensures Emitted(pieces + [piece])
         == if StripCr(piece) != "" then Emitted(pieces) + [StripCr(piece)] else Emitted(pieces)
  {
    assert (pieces + [piece])[..|pieces|] == pieces;
  }

  // --- The dashboard's decoder ---

  class DashboardStream {
    var buf: string
    /** The payloads handed to the callback. */
    var received: seq<string>
    ghost var text: string

    ghost predicate Valid()
      reads this
    {
      buf == Cut(text, BLANK_LINE).rest && received == DashboardReads(text)
    }

    constructor ()
      ensures Valid() && text == ""
    {
      buf, received, text := "", [], "";
    }

    method Read(value: string)
      requires Valid()
      modifies this
      ensures Valid() && text == old(text) + value
    {
      hide Cut, Payloads, Payload, FirstAt, After;
      CutAsItArrives(text, value, BLANK_LINE);
      ghost var arrived := Cut(buf + value, BLANK_LINE);
      ghost var before := Cut(text, BLANK_LINE).whole;
      ghost var seen: seq<string> := [];
      AfterNothing(arrived);
      buf := buf + value;
      assert before + [] == before;
      var i := IndexOf(buf, BLANK_LINE);
      while i >= 0
        invariant FirstAt(buf, BLANK_LINE, i)
        invariant arrived == After(seen, Cut(buf, BLANK_LINE)) && received == Payloads(before + seen)
        invariant text == old(text)
        decreases |buf|
      {
        FirstCut(buf, BLANK_LINE, i);
        AfterAfter(seen, buf[..i], Cut(buf[i + 2..], BLANK_LINE));
        OnePayload(before + seen, buf[..i]);
        assert (before + seen) + [buf[..i]] == before + (seen + [buf[..i]]);
        seen := seen + [buf[..i]];
        var evt := buf[..i];
        buf := buf[i + 2..];
        var data := Payload(evt);
        if data != "" {
          received := received + [data];
        }
        i := IndexOf(buf, BLANK_LINE);
      }
      NoMoreCuts(buf, BLANK_LINE, i);
      AfterAll(before, seen, buf);
      text := text + value;
    }
  }

  lemma OnePayload(events: seq<string>, event: string)
    ensures Payloads(events + [event])
         == if Payload(event) != "" then Payloads(events) + [Payload(event)] else Payloads(events)
  {
    hide Payload;
    assert (events + [event])[..|events|] == events;
  }

  // --- The command-line client's decoder ---

  class CliStream {
    var buffered: string
    var received: seq<string>
    ghost var text: string

    ghost predicate Valid()
      reads this
    {
      buffered == Cut(text, NL).rest && received == CliReads(text)
    }

    constructor ()
      ensures Valid() && text == ""
    {
      buffered, received, text := "", [], "";
    }

    method Read(value: string)
      requires Valid()
      modifies this
      ensures Valid() && text == old(text) + value
    {
      hide Cut, DataOf;
      CutAsItArrives(text, value, NL);
      ghost var before := Cut(text, NL).whole;
      var lines := Cut(buffered + value, NL);
      buffered := lines.rest;
      assert before + lines.whole[..0] == before;
      for k := 0 to |lines.whole|
        invariant received == DataOf(before + lines.whole[..k])
        invariant text == old(text) && buffered == lines.rest
      {
        var line := lines.whole[k];
        OneData(before + lines.whole[..k], line);
        assert before + lines.whole[..k + 1] == (before + lines.whole[..k]) + [line];
        if IsData(line) {
          received := received + [line[|DATA|..]];
        }
      }
      assert lines.whole[..|lines.whole|] == lines.whole;
      text := text + value;
    }
  }

  lemma OneData(lines: seq<string>, line: string)
    ensures DataOf(lines + [line])
         == if IsData(line) then DataOf(lines) + [line[|DATA|..]] else DataOf(lines)
  {
    assert (lines + [line])[..|lines|] == lines;
  }

  // --- Nothing is lost, changed or reordered on the way ---

  ghost predicate Sendable(lines: seq<string>) {
    forall l :: l in lines ==> l != "" && Free(l, '\n')
  }

  lemma {:induction false} EmittedAreSendable(pieces: seq<string>)
    requires forall p :: p in pieces ==> Free(p, '\n')
    ensures Sendable(Emitted(pieces))
  {
    if pieces != [] {
      EmittedAreSendable(pieces[..|pieces| - 1]);
      assert Free(pieces[|pieces| - 1], '\n');
    }
  }

  lemma LogLinesAreSendable(output: string)
    ensures Sendable(LogLines(output))
  {
    PiecesAreFree(output, '\n');
    EmittedAreSendable(Cut(output, NL).whole + [Cut(output, NL).rest]);
  }

  lemma LineKeepsItsText(line: string)
    requires Free(line, '\n')
    ensures Event(line) == DATA + line + BLANK_LINE && Free(DATA + line, '\n')
  {
    assert forall k :: 0 <= k < |line| ==> line[k] in line;
    assert NewlinesToSpaces(line) == line;
  }

  lemma EventIsOnePiece(line: string)
    requires Free(line, '\n')
    ensures Cut(Event(line), BLANK_LINE) == Pieces([DATA + line], "")
    ensures Cut(Event(line), NL) == Pieces([DATA + line, ""], "")
  {
    hide Cut, FirstAt, Event, Free;
    LineKeepsItsText(line);
    var head, event := DATA + line, Event(line);
    FirstBlankLine(head);
    FirstCut(event, BLANK_LINE, |head|);
    assert event[..|head|] == head && event[|head| + 2..] == "";
    EmptyRejoins(BLANK_LINE);
    assert [head] + [] == [head];
    EmptyRejoins(NL);
    RejoinOneMore([], head, NL);
    RejoinOneMore([head], "", NL);
    assert [] + [head] == [head] && [head] + [""] == [head, ""];
    assert event == Rejoin([head, ""], NL) + "" by {
      assert BLANK_LINE == NL + NL;
    }
    EmptyIsFree();
    PiecesAreUnique([head, ""], "", '\n');
  }

  /** A line that holds newlines is sent as one event all the same, with a space for each. */
  lemma NewlinesAreSpaces(line: string)
    ensures var sent := NewlinesToSpaces(line);
      && Free(sent, '\n') && Event(line) == Event(sent) && |sent| == |line|
      && forall k :: 0 <= k < |line| ==> sent[k] == if line[k] == '\n' then ' ' else line[k]
    ensures Cut(Event(line), BLANK_LINE) == Pieces([DATA + NewlinesToSpaces(line)], "")
  {
    hide Cut;
    var sent := NewlinesToSpaces(line);
    assert Free(sent, '\n');
    assert NewlinesToSpaces(sent) == sent;
    EventIsOnePiece(sent);
  }

  /** Of an event with several data lines the dashboard gets them on lines of their own. */
  lemma DataLinesJoin(a: string, b: string)
    requires Free(a, '\n') && Free(b, '\n')
    ensures Payload(DATA + a + NL + (DATA + b)) == a + NL + b
  {
    hide Cut;
    var x, y := DATA + a, DATA + b;
    assert Free(x, '\n') && Free(y, '\n');
    PiecesAreUnique([x], y, '\n');
    assert Rejoin([x], NL) == x + NL by {
      assert [x][..0] == [];
    }
    TwoDataLines(a, b);
  }

  lemma TwoDataLines(a: string, b: string)
    ensures Joined(DataOf([DATA + a] + [DATA + b])) == a + NL + b
  {
    var x: string, y: string := DATA + a, DATA + b;
    assert x[|DATA|..] == a && y[|DATA|..] == b;
    assert ([x] + [y])[..1] == [x];
    assert DataOf([x]) == [a];
    assert DataOf([x] + [y]) == [a] + [b];
    assert ([a] + [b])[..1] == [a];
  }

  lemma FirstBlankLine(head: string)
    requires Free(head, '\n')
    ensures FirstAt(head + BLANK_LINE, BLANK_LINE, |head|)
  {
    var event := head + BLANK_LINE;
    assert event[|head|..|head| + 2] == BLANK_LINE;
    forall j: nat | j < |head|
      ensures !OccursAt(event, BLANK_LINE, j)
    {
      assert event[j] == head[j] && head[j] in head;
      assert event[j..j + 2][0] == event[j];
    }
  }

  lemma EmptyIsFree()
    ensures Free("", '\n')
  {
  }

  lemma PayloadOfEvent(line: string)
    requires Free(line, '\n')
    ensures Payload(DATA + line) == line
  {
    LineKeepsItsText(line);
    hide Cut;
    CutFree(DATA + line, '\n');
    OneData([], DATA + line);
    assert [] + [DATA + line] == [DATA + line];
    assert (DATA + line)[|DATA|..] == line;
  }

  lemma DashboardReadsOneMore(text: string, line: string)
    requires line != "" && Free(line, '\n') && Cut(text, BLANK_LINE).rest == ""
    ensures DashboardReads(text + Event(line)) == DashboardReads(text) + [line]
    ensures Cut(text + Event(line), BLANK_LINE).rest == ""
  {
    hide Cut, Payload, Payloads, Event;
    EventIsOnePiece(line);
    CutAsItArrives(text, Event(line), BLANK_LINE);
    assert "" + Event(line) == Event(line);
    OnePayload(Cut(text, BLANK_LINE).whole, DATA + line);
    PayloadOfEvent(line);
  }

  lemma CliReadsOneMore(text: string, line: string)
    requires Free(line, '\n') && Cut(text, NL).rest == ""
    ensures CliReads(text + Event(line)) == CliReads(text) + [line]
    ensures Cut(text + Event(line), NL).rest == ""
  {
    hide Cut, DataOf, Event;
    EventIsOnePiece(line);
    CutAsItArrives(text, Event(line), NL);
    assert "" + Event(line) == Event(line);
    var before := Cut(text, NL).whole;
    OneData(before, DATA + line);
    OneData(before + [DATA + line], "");
    assert before + [DATA + line, ""] == (before + [DATA + line]) + [""];
    assert (DATA + line)[|DATA|..] == line;
  }

  lemma NothingRead()
    ensures DashboardReads("") == [] && CliReads("") == [] && Cut("", BLANK_LINE).rest == Cut("", NL).rest == ""
  {
  }

  /** Each client reads back exactly the lines that were sent, in order. */
  lemma {:induction false} ReadsBack(lines: seq<string>)
    requires Sendable(lines)
    ensures DashboardReads(EventText(lines)) == lines && Cut(EventText(lines), BLANK_LINE).rest == ""
    ensures CliReads(EventText(lines)) == lines && Cut(EventText(lines), NL).rest == ""
  {
    hide DashboardReads, CliReads, Cut, Event, Free;
    if lines == [] {
      NothingRead();
    } else {
      var init, last := lines[..|lines| - 1], lines[|lines| - 1];
      assert forall l :: l in init ==> l in lines;
      ReadsBack(init);
      assert last in lines && init + [last] == lines;
      DashboardReadsOneMore(EventText(init), last);
      CliReadsOneMore(EventText(init), last);
    }
  }

  /** Both clients end up with exactly the non-empty lines of the whole output, each
      without its trailing carriage return. */
  lemma PipelineFidelity(output: string)
    ensures DashboardReads(EventText(LogLines(output))) == LogLines(output)
    ensures CliReads(EventText(LogLines(output))) == LogLines(output)
  {
    LogLinesAreSendable(output);
    ReadsBack(LogLines(output));
  }

  /** And at every moment on the way, each has the first so many of them. */
  lemma NeverAhead(lines: seq<string>, soFar: string, toCome: string)
    requires Sendable(lines) && EventText(lines) == soFar + toCome
    ensures DashboardReads(soFar) <= lines && CliReads(soFar) <= lines
  {
    hide Cut, DataOf, Payloads;
    ReadsBack(lines);
    CutAsItArrives(soFar, toCome, BLANK_LINE);
    CutAsItArrives(soFar, toCome, NL);
    PayloadsAdd(Cut(soFar, BLANK_LINE).whole, Cut(Cut(soFar, BLANK_LINE).rest + toCome, BLANK_LINE).whole);
    DataOfAdds(Cut(soFar, NL).whole, Cut(Cut(soFar, NL).rest + toCome, NL).whole);
  }

  /** What the log lines are, said without cutting: take the output apart into
      lines in the one way there is; a final newline ends a line and starts none. */
  lemma LogLinesOf(lines: seq<string>, rest: string)
    requires (forall l :: l in lines ==> Free(l, '\n')) && Free(rest, '\n')
    ensures LogLines(Rejoin(lines, NL) + rest) == Emitted(lines) + (if StripCr(rest) == "" then [] else [StripCr(rest)])
  {
    hide Cut, StripCr, Emitted;
    PiecesAreUnique(lines, rest, '\n');
    OneEmitted(lines, rest);
    assert Emitted(lines) + [] == Emitted(lines);
  }

  // --- From end to end ---

  /** The splitter over a container's output in the chunks it comes in. */
  method SplitAll(chunks: seq<string>) returns (lines: seq<string>)
    ensures lines == LogLines(Concat(chunks))
  {
    hide LogLines;
    var splitter := new LineSplitter();
    for k := 0 to |chunks|
      invariant splitter.Valid() && fresh(splitter) && splitter.input == Concat(chunks[..k])
    {
      assert chunks[..k + 1][..k] == chunks[..k];
      splitter.Write(chunks[k]);
    }
    assert chunks[..|chunks|] == chunks;
    splitter.Final();
    lines := splitter.lines;
  }

  method WriteEvents(lines: seq<string>) returns (text: string)
    ensures text == EventText(lines)
  {
    hide Event;
    text := "";
    for k := 0 to |lines|
      invariant text == EventText(lines[..k])
    {
      assert lines[..k + 1][..k] == lines[..k];
      text := text + Event(lines[k]);
    }
    assert lines[..|lines|] == lines;
  }

  /** How much of the text the next read gets. */
  function ReadSize(text: string, at: nat, size: nat): nat
    requires at <= |text|
  {
    if at + size > |text| then |text| - at else size
  }

  /** The dashboard reading the text in pieces of the given sizes, then the rest. */
  method DashboardReadsAll(text: string, sizes: seq<nat>) returns (received: seq<string>)
    ensures received == DashboardReads(text)
  {
    hide DashboardReads;
    var stream := new DashboardStream();
    var at: nat := 0;
    for k := 0 to |sizes|
      invariant stream.Valid() && fresh(stream) && at <= |text| && stream.text == text[..at]
    {
      var n := ReadSize(text, at, sizes[k]);
      assert text[..at] + text[at..at + n] == text[..at + n];
      stream.Read(text[at..at + n]);
      at := at + n;
    }
    assert text[..at] + text[at..] == text;
    stream.Read(text[at..]);
    received := stream.received;
  }

  method CliReadsAll(text: string, sizes: seq<nat>) returns (received: seq<string>)
    ensures received == CliReads(text)
  {
    hide CliReads;
    var stream := new CliStream();
    var at: nat := 0;
    for k := 0 to |sizes|
      invariant stream.Valid() && fresh(stream) && at <= |text| && stream.text == text[..at]
    {
      var n := ReadSize(text, at, sizes[k]);
      assert text[..at] + text[at..at + n] == text[..at + n];
      stream.Read(text[at..at + n]);
      at := at + n;
    }
    assert text[..at] + text[at..] == text;
    stream.Read(text[at..]);
    received := stream.received;
  }

  /** For any chunks of the output and any reads of the event stream, both clients
      receive exactly the lines of the whole output. */
  method Follow(chunks: seq<string>, dashboardSizes: seq<nat>, cliSizes: seq<nat>)
                returns (shown: seq<string>, printed: seq<string>)
    ensures shown == LogLines(Concat(chunks)) && printed == LogLines(Concat(chunks))
  {
    hide LogLines, DashboardReads, CliReads;
    var lines := SplitAll(chunks);
    var text := WriteEvents(lines);
    shown := DashboardReadsAll(text, dashboardSizes);
    printed := CliReadsAll(text, cliSizes);
    PipelineFidelity(Concat(chunks));
  }

  // --- Line endings ---

  function WithReturns(lines: seq<string>): seq<string> {
    seq(|lines|, k requires 0 <= k < |lines| => lines[k] + ['\r'])
  }

  /** One carriage return at the end of a line goes, and nothing else of it. */
  lemma OneReturnGoes(line: string)
    ensures StripCr(line + ['\r']) == line
    ensures line == "" || line[|line| - 1] != '\r' ==> StripCr(line) == line
  {
  }

  lemma {:induction false} ReturnsRejoin(lines: seq<string>)
    ensures Rejoin(WithReturns(lines), NL) == Rejoin(lines, "\r\n")
    decreases |lines|
  {
    if lines != [] {
      var n := |lines| - 1;
      ReturnsRejoin(lines[..n]);
      assert WithReturns(lines)[..n] == WithReturns(lines[..n]);
      assert Rejoin(lines[..n], "\r\n") + (lines[n] + ['\r']) + NL == Rejoin(lines[..n], "\r\n") + lines[n] + "\r\n";
    }
  }

  lemma WithReturnsLast(front: seq<string>, last: string)
    ensures WithReturns(front + [last]) == WithReturns(front) + [last + ['\r']]
  {
  }

  lemma {:induction false} ReturnsEmitted(lines: seq<string>)
    requires forall l :: l in lines ==> l != "" && l[|l| - 1] != '\r'
    ensures Emitted(WithReturns(lines)) == lines && Emitted(lines) == lines
    decreases |lines|
  {
    hide StripCr, WithReturns;
    if lines == [] {
      NoLines();
    } else {
      var front, last := lines[..|lines| - 1], lines[|lines| - 1];
      assert lines == front + [last] && last in lines;
      ReturnsEmitted(front);
      OneReturnGoes(last);
      WithReturnsLast(front, last);
      hide Emitted;
      OneEmitted(front, last);
      OneEmitted(WithReturns(front), last + ['\r']);
    }
  }

  lemma NoLines()
    ensures WithReturns([]) == []
  {
  }

  /** Lines sent with either line ending arrive as they were. */
  lemma EitherEnding(lines: seq<string>)
    requires forall l :: l in lines ==> l != "" && Free(l, '\n') && l[|l| - 1] != '\r'
    ensures LogLines(Rejoin(lines, NL)) == lines
    ensures LogLines(Rejoin(lines, "\r\n")) == lines
  {
    hide LogLines, Rejoin, Emitted;
    EmptyIsFree();
    ReturnsRejoin(lines);
    ReturnsEmitted(lines);
    forall l | l in WithReturns(lines)
      ensures Free(l, '\n')
    {
      var k :| 0 <= k < |lines| && WithReturns(lines)[k] == l;
      assert lines[k] in lines;
    }
    LogLinesOf(lines, "");
    LogLinesOf(WithReturns(lines), "");
    assert Rejoin(lines, NL) + "" == Rejoin(lines, NL);
    assert Rejoin(WithReturns(lines), NL) + "" == Rejoin(WithReturns(lines), NL);
  }
}
