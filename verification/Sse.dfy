/** Decoding a streamed response into events (`_iter_sse`, `src/axiom/llm/openai_compatible.py:173-193`):
    a subset of section 9.2.6, "Interpreting an event stream", of the WHATWG HTML Living Standard. */
module Sse {
  import opened Wrappers
  import opened Text

  // ---- Lines ----

  /** The line boundaries of `str.splitlines`; a carriage return and a following newline are one. */
  predicate IsLineBreak(c: char) {
    var n := c as int;
    0x0A <= n <= 0x0D || 0x1C <= n <= 0x1E || n == 0x85 || n == 0x2028 || n == 0x2029
  }

  function LinesFrom(line: string, s: string): seq<string>
    decreases |s|
  {
    if s == "" then (if line == "" then [] else [line])
    else if "\r\n" <= s then [line] + LinesFrom("", s[2..])
    else if IsLineBreak(s[0]) then [line] + LinesFrom("", s[1..])
    else LinesFrom(line + [s[0]], s[1..])
  }

  function SplitLines(s: string): seq<string> {
    LinesFrom("", s)
  }

  function JoinLines(lines: seq<string>): string {
    if lines == [] then "" else if |lines| == 1 then lines[0] else lines[0] + "\n" + JoinLines(lines[1..])
  }

  // ---- Events ----

  function DataLines(lines: seq<string>): seq<string> {
    if lines == [] then []
    else
      var line := Strip(lines[0]);
      (if "data:" <= line then [Strip(line[5..])] else []) + DataLines(lines[1..])
  }

  /** A line of an event: data with or without a space behind the colon, or another field or comment. */
  datatype Line = Data(text: string, spaced: bool) | Other(text: string)

  function Written(line: Line): string {
    match line
    case Data(text, spaced) => (if spaced then "data: " else "data:") + text
    case Other(text) => text
  }

  function WrittenAll(lines: seq<Line>): seq<string> {
    if lines == [] then [] else [Written(lines[0])] + WrittenAll(lines[1..])
  }

  function Texts(lines: seq<Line>): seq<string> {
    if lines == [] then [] else (if lines[0].Data? then [lines[0].text] else []) + Texts(lines[1..])
  }

  /** Data without white space around it; other lines do not look like data. */
  predicate IsLine(line: Line) {
    match line
    case Data(text, _) => Stripped(text)
    case Other(text) => !("data:" <= Strip(text))
  }

  /** Exactly the data lines are read, with or without the space; all other lines are skipped. */
  lemma {:induction false} ReadsDataLines(lines: seq<Line>)
    requires forall i :: 0 <= i < |lines| ==> IsLine(lines[i])
    ensures DataLines(WrittenAll(lines)) == Texts(lines)
  {
    if lines != [] {
      assert WrittenAll(lines)[1..] == WrittenAll(lines[1..]);
      ReadsDataLines(lines[1..]);
      assert IsLine(lines[0]);
      match lines[0] {
        case Data(text, spaced) => if spaced { FieldIsRead(text); } else { TightFieldIsRead(text); }
        case Other(_) =>
      }
      hide Strip;
    }
  }

  lemma TightFieldIsRead(line: string)
    requires Stripped(line)
    ensures var field := Strip("data:" + line); "data:" <= field && Strip(field[5..]) == line
  {
    var field := "data:" + line;
    assert line != "" ==> field[|field| - 1] == line[|line| - 1];
    StripOfStripped(field);
    assert field[5..] == line;
    StripOfStripped(line);
  }

  /** The payload of an event, if it has a data line. */
  function Payload(event: string): seq<string> {
    var data := DataLines(SplitLines(event));
    if data == [] then [] else [JoinLines(data)]
  }

  /** Where the first blank line starts. */
  function BreakAt(s: string): (k: Option<nat>)
    ensures k.Some? ==> k.value + 2 <= |s|
  {
    if |s| < 2 then None
    else if s[0] == '\n' && s[1] == '\n' then Some(0)
    else match BreakAt(s[1..]) case None => None case Some(k) => Some(k + 1)
  }

  /** The payloads of all finished events of the text, and what is left of it. */
  function Drain(s: string): (seq<string>, string)
    decreases |s|
  {
    match BreakAt(s)
    case None => ([], s)
    case Some(k) =>
      var (events, rest) := Drain(s[k + 2..]);
      (Payload(s[..k]) + events, rest)
  }

  /** The events of a whole text. */
  function Decode(s: string): seq<string> {
    var (events, rest) := Drain(s);
    events + if Strip(rest) != "" then Payload(rest) else []
  }

  function Concat(chunks: seq<string>): string {
    if chunks == [] then "" else Concat(chunks[..|chunks| - 1]) + chunks[|chunks| - 1]
  }

  // ---- Chunks ----

  lemma {:induction false} BreakOfLonger(s: string, t: string)
    requires BreakAt(s).Some?
    ensures BreakAt(s + t) == BreakAt(s)
  {
    if !(s[0] == '\n' && s[1] == '\n') {
      BreakOfLonger(s[1..], t);
      assert (s + t)[1..] == s[1..] + t;
    }
  }

  /** Draining a text and then draining what is left with more text behind it is draining it all. */
  lemma {:induction false} DrainAppend(s: string, t: string)
    ensures var (events, rest) := Drain(s); Drain(s + t) == (events + Drain(rest + t).0, Drain(rest + t).1)
    decreases |s|
  {
    hide BreakAt, Payload;
    match BreakAt(s) {
      case None => assert [] + Drain(s + t).0 == Drain(s + t).0;
      case Some(k) =>
        BreakOfLonger(s, t);
        assert (s + t)[..k] == s[..k] && (s + t)[k + 2..] == s[k + 2..] + t;
        DrainAppend(s[k + 2..], t);
        var (events, rest) := Drain(s[k + 2..]);
        assert Payload(s[..k]) + (events + Drain(rest + t).0) == (Payload(s[..k]) + events) + Drain(rest + t).0;
    }
  }

  lemma DrainNothing()
    ensures Drain("") == ([], "")
  {}

  lemma DrainStep(s: string)
    ensures match BreakAt(s)
            case None => Drain(s) == ([], s)
            case Some(k) => Drain(s) == (Payload(s[..k]) + Drain(s[k + 2..]).0, Drain(s[k + 2..]).1)
  {}

  /** The payloads of the events that are finished in the buffer, and what stays in it. */
  method DrainBuffer(text: string) returns (events: seq<string>, buffer: string)
    ensures (events, buffer) == Drain(text)
  {
    hide Payload, BreakAt, Drain;
    events, buffer := [], text;
    assert [] + Drain(text).0 == Drain(text).0;
    DrainStep(buffer);
    var found := BreakAt(buffer);
    while found.Some?
      invariant found == BreakAt(buffer)
      invariant Drain(text) == (events + Drain(buffer).0, Drain(buffer).1)
      decreases |buffer|
    {
      DrainStep(buffer);
      var payload := PayloadOf(buffer[..found.value]);
      assert (events + payload) + Drain(buffer[found.value + 2..]).0 ==
             events + (payload + Drain(buffer[found.value + 2..]).0);
      events := events + payload;
      buffer := buffer[found.value + 2..];
      found := BreakAt(buffer);
    }
    DrainStep(buffer);
    assert events + [] == events;
  }

  /** However the response is cut into chunks, the events are those of the whole text. */
  method IterSse(chunks: seq<string>) returns (events: seq<string>)
    ensures events == Decode(Concat(chunks))
  {
    hide Payload, BreakAt, Drain;
    DrainNothing();
    events := [];
    var buffer := "";
    for i := 0 to |chunks|
      invariant Drain(Concat(chunks[..i])) == (events, buffer)
    {
      assert chunks[..i + 1][..i] == chunks[..i];
      DrainAppend(Concat(chunks[..i]), chunks[i]);
      var finished: seq<string>;
      finished, buffer := DrainBuffer(buffer + chunks[i]);
      events := events + finished;
    }
    assert chunks[..|chunks|] == chunks;
    if Strip(buffer) != "" {
      var payload := PayloadOf(buffer);
      events := events + payload;
    }
  }

  method PayloadOf(event: string) returns (payload: seq<string>)
    ensures payload == Payload(event)
  {
    var lines, dataLines: seq<string> := SplitLines(event), [];
    for i := 0 to |lines|
      invariant dataLines + DataLines(lines[i..]) == DataLines(lines)
    {
      assert lines[i..][1..] == lines[i + 1..];
      var line := Strip(lines[i]);
      if "data:" <= line {
        var data := Strip(line[5..]);
        assert (dataLines + [data]) + DataLines(lines[i + 1..]) == dataLines + ([data] + DataLines(lines[i + 1..]));
        dataLines := dataLines + [data];
      } else {
        assert [] + DataLines(lines[i + 1..]) == DataLines(lines[i + 1..]);
      }
    }
    assert dataLines + [] == dataLines;
    payload := if dataLines == [] then [] else [JoinLines(dataLines)];
  }

  // ---- Round trip ----

  /** A line that survives: no line boundary in it, no white space around it. */
  predicate IsPlain(line: string) {
    Stripped(line) && forall i :: 0 <= i < |line| ==> !IsLineBreak(line[i])
  }

  predicate ArePlain(lines: seq<string>) {
    lines != [] && forall i :: 0 <= i < |lines| ==> IsPlain(lines[i])
  }

  function EventText(lines: seq<string>): string {
    if lines == [] then ""
    else "data: " + lines[0] + if |lines| == 1 then "" else "\n" + EventText(lines[1..])
  }

  /** The events as a server writes them. */
  function Encode(events: seq<seq<string>>): string {
    if events == [] then "" else EventText(events[0]) + "\n\n" + Encode(events[1..])
  }

  function JoinAll(events: seq<seq<string>>): seq<string> {
    if events == [] then [] else [JoinLines(events[0])] + JoinAll(events[1..])
  }

  predicate NoNewline(s: string) {
    forall i :: 0 <= i < |s| ==> s[i] != '\n'
  }

  lemma {:induction false} BreakAfter(line: string, rest: string)
    requires NoNewline(line) && rest != "" && rest[0] == '\n'
    ensures BreakAt(line + rest) == match BreakAt(rest) case None => None case Some(k) => Some(|line| + k)
  {
    if line == "" {
      assert line + rest == rest;
    } else {
      assert NoNewline(line[1..]);
      assert (line + rest)[1..] == line[1..] + rest;
      BreakAfter(line[1..], rest);
    }
  }

  /** The first blank line after an encoded event is the one that ends it. */
  lemma {:induction false} BreakOfEvent(lines: seq<string>, rest: string)
    requires ArePlain(lines)
    ensures BreakAt(EventText(lines) + "\n\n" + rest) == Some(|EventText(lines)|)
    decreases |lines|
  {
    hide BreakAt, EventText, IsPlain;
    FirstLine(lines, rest);
    var line := "data: " + lines[0];
    if |lines| == 1 {
      BreakHere(rest);
      BreakAfter(line, "\n\n" + rest);
    } else {
      var more := EventText(lines[1..]) + "\n\n" + rest;
      BreakOfEvent(lines[1..], rest);
      FirstLine(lines[1..], rest);
      NewlineBefore(more);
      BreakAfter(line, "\n" + more);
    }
  }

  lemma Regrouped(a: string, b: string, c: string, d: string, e: string)
    ensures (a + d) + e == a + (d + e)
    ensures ((a + (b + c)) + d) + e == a + (b + ((c + d) + e))
  {}

  /** The text of an event, cut behind its first line. */
  lemma FirstLine(lines: seq<string>, rest: string)
    requires ArePlain(lines)
    ensures NoNewline("data: " + lines[0])
    ensures |lines| == 1 ==> EventText(lines) == "data: " + lines[0]
    ensures |lines| == 1 ==> EventText(lines) + "\n\n" + rest == ("data: " + lines[0]) + ("\n\n" + rest)
    ensures |lines| > 1 ==> |EventText(lines)| == |"data: " + lines[0]| + 1 + |EventText(lines[1..])|
    ensures |lines| > 1 ==> EventText(lines) + "\n\n" + rest ==
                            ("data: " + lines[0]) + ("\n" + (EventText(lines[1..]) + "\n\n" + rest))
    ensures (EventText(lines) + "\n\n" + rest)[0] == 'd'
  {
    hide EventText, IsPlain, NoNewline;
    PlainLine(lines[0]);
    var line := "data: " + lines[0];
    FirstOfEvent(lines);
    if |lines| == 1 {
      Regrouped(line, "", "", "\n\n", rest);
    } else {
      Regrouped(line, "\n", EventText(lines[1..]), "\n\n", rest);
    }
  }

  lemma PlainLine(line: string)
    requires IsPlain(line)
    ensures NoNewline("data: " + line) && ("data: " + line)[0] == 'd'
  {}

  lemma FirstOfEvent(lines: seq<string>)
    requires ArePlain(lines)
    ensures EventText(lines) ==
            if |lines| == 1 then "data: " + lines[0] else ("data: " + lines[0]) + ("\n" + EventText(lines[1..]))
    ensures EventText(lines) != "" && EventText(lines)[0] == 'd'
  {
    if |lines| == 1 { assert ("data: " + lines[0]) + "" == "data: " + lines[0]; }
  }

  lemma BreakHere(rest: string)
    ensures BreakAt("\n\n" + rest) == Some(0)
  {}

  lemma NewlineBefore(s: string)
    requires BreakAt(s).Some? && s[0] != '\n'
    ensures BreakAt("\n" + s) == Some(BreakAt(s).value + 1)
  {
    assert ("\n" + s)[1..] == s;
  }

  lemma {:induction false} LinesOfLine(before: string, line: string, rest: string)
    requires forall i :: 0 <= i < |line| ==> !IsLineBreak(line[i])
    ensures LinesFrom(before, line + rest) == LinesFrom(before + line, rest)
    decreases |line|
  {
    if line == "" {
      assert line + rest == rest && before + line == before;
    } else {
      assert (line + rest)[1..] == line[1..] + rest;
      assert before + line == (before + [line[0]]) + line[1..];
      assert IsLineBreak('\r') && (line + rest)[0] != '\r';
      LinesOfLine(before + [line[0]], line[1..], rest);
    }
  }

  function Fields(lines: seq<string>): seq<string> {
    seq(|lines|, i requires 0 <= i < |lines| => "data: " + lines[i])
  }

  lemma {:induction false} LinesOfEvent(lines: seq<string>)
    requires ArePlain(lines)
    ensures SplitLines(EventText(lines)) == Fields(lines)
    decreases |lines|
  {
    var line := "data: " + lines[0];
    forall i | 0 <= i < |line| ensures !IsLineBreak(line[i]) { assert IsPlain(lines[0]); }
    if |lines| == 1 {
      assert EventText(lines) == line + "";
      LinesOfLine("", line, "");
      assert "" + line == line;
    } else {
      var more := "\n" + EventText(lines[1..]);
      assert EventText(lines) == line + more;
      LinesOfLine("", line, more);
      assert "" + line == line;
      assert more[1..] == EventText(lines[1..]) && more[0] == '\n' && IsLineBreak('\n');
      LinesOfEvent(lines[1..]);
      assert Fields(lines) == [line] + Fields(lines[1..]);
    }
  }

  lemma {:induction false} StripOfStripped(s: string)
    requires Stripped(s)
    ensures Strip(s) == s
  {}

  lemma FieldIsRead(line: string)
    requires Stripped(line)
    ensures var field := Strip("data: " + line); "data:" <= field && Strip(field[5..]) == line
  {
    var field := "data: " + line;
    if line == "" {
      assert field[..5] == "data:";
      StripOfStripped("data:");
      assert StripLeft(field) == field;
      assert StripRight(field) == StripRight("data:");
    } else {
      assert field[|field| - 1] == line[|line| - 1];
      StripOfStripped(field);
      assert field[5..] == " " + line;
      assert (" " + line)[1..] == line;
      assert StripLeft(" " + line) == StripLeft(line);
      StripOfStripped(line);
    }
  }

  lemma {:induction false} DataOfFields(lines: seq<string>)
    requires forall i :: 0 <= i < |lines| ==> IsPlain(lines[i])
    ensures DataLines(Fields(lines)) == lines
  {
    if lines != [] {
      FieldIsRead(lines[0]);
      assert Fields(lines)[1..] == Fields(lines[1..]);
      DataOfFields(lines[1..]);
    }
  }

  lemma {:induction false} DrainEncoded(events: seq<seq<string>>)
    requires forall i :: 0 <= i < |events| ==> ArePlain(events[i])
    ensures Drain(Encode(events)) == (JoinAll(events), "")
  {
    if events != [] {
      var text, rest := EventText(events[0]), Encode(events[1..]);
      BreakOfEvent(events[0], rest);
      DrainEncoded(events[1..]);
      assert (text + "\n\n" + rest)[..|text|] == text;
      assert (text + "\n\n" + rest)[|text| + 2..] == rest;
      LinesOfEvent(events[0]);
      DataOfFields(events[0]);
    }
  }

  /** Whatever plain events are encoded, exactly those are decoded, in order; with the contract of
      `IterSse`, also from any chunks of the text. */
  lemma RoundTrip(events: seq<seq<string>>)
    requires forall i :: 0 <= i < |events| ==> ArePlain(events[i])
    ensures Decode(Encode(events)) == JoinAll(events)
  {
    DrainEncoded(events);
  }

  // ---- CRLF line ends ----

  /** The same event with "\r\n" between its lines. */
  function CrLfText(lines: seq<string>): string {
    if lines == [] then ""
    else "data: " + lines[0] + if |lines| == 1 then "" else "\r\n" + CrLfText(lines[1..])
  }

  /** The events as a server with "\r\n" line ends writes them. */
  function EncodeCrLf(events: seq<seq<string>>): string {
    if events == [] then "" else CrLfText(events[0]) + "\r\n\r\n" + EncodeCrLf(events[1..])
  }

  function Flatten(events: seq<seq<string>>): seq<string> {
    if events == [] then [] else events[0] + Flatten(events[1..])
  }

  /** Every newline ends a "\r\n". */
  predicate OnlyCrLf(s: string) {
    forall i :: 0 <= i < |s| && s[i] == '\n' ==> i > 0 && s[i - 1] == '\r'
  }

  lemma OnlyCrLfJoin(s: string, t: string)
    requires OnlyCrLf(s) && OnlyCrLf(t)
    ensures OnlyCrLf(s + t)
  {
    forall i | 0 <= i < |s + t| && (s + t)[i] == '\n' ensures i > 0 && (s + t)[i - 1] == '\r' {
      if i >= |s| { assert t[i - |s|] == '\n'; }
    }
  }

  lemma {:induction false} CrLfTextOnly(lines: seq<string>)
    requires forall i :: 0 <= i < |lines| ==> IsPlain(lines[i])
    ensures OnlyCrLf(CrLfText(lines))
  {
    if lines != [] {
      var line := "data: " + lines[0];
      forall i | 0 <= i < |line| ensures line[i] != '\n' { assert IsPlain(lines[0]); }
      if |lines| > 1 {
        CrLfTextOnly(lines[1..]);
        OnlyCrLfJoin("\r\n", CrLfText(lines[1..]));
        OnlyCrLfJoin(line, "\r\n" + CrLfText(lines[1..]));
      }
    }
  }

  lemma {:induction false} EncodeCrLfOnly(events: seq<seq<string>>)
    requires forall i :: 0 <= i < |events| ==> ArePlain(events[i])
    ensures OnlyCrLf(EncodeCrLf(events))
  {
    if events != [] {
      CrLfTextOnly(events[0]);
      EncodeCrLfOnly(events[1..]);
      OnlyCrLfJoin(CrLfText(events[0]), "\r\n\r\n");
      OnlyCrLfJoin(CrLfText(events[0]) + "\r\n\r\n", EncodeCrLf(events[1..]));
    }
  }

  lemma {:induction false} NoBreakInCrLf(s: string)
    requires forall i :: 0 < i < |s| && s[i] == '\n' ==> s[i - 1] == '\r'
    ensures BreakAt(s).None?
  {
    if |s| >= 2 {
      assert forall i :: 0 <= i < |s| - 1 ==> s[1..][i] == s[i + 1];
      NoBreakInCrLf(s[1..]);
    }
  }

  lemma LineThenBreak(line: string, more: string)
    requires forall i :: 0 <= i < |line| ==> !IsLineBreak(line[i])
    ensures SplitLines(line + ("\r\n" + more)) == [line] + SplitLines(more)
  {
    LinesOfLine("", line, "\r\n" + more);
    assert "" + line == line;
    assert ("\r\n" + more)[2..] == more;
  }

  lemma FieldIsLine(line: string)
    requires IsPlain(line)
    ensures forall i :: 0 <= i < |"data: " + line| ==> !IsLineBreak(("data: " + line)[i])
  {}

  /** The lines of an encoded event, and then those of what follows it. */
  lemma {:induction false} LinesOfCrLf(lines: seq<string>, rest: string)
    requires ArePlain(lines)
    ensures SplitLines(CrLfText(lines) + "\r\n\r\n" + rest) == Fields(lines) + [""] + SplitLines(rest)
    decreases |lines|
  {
    hide SplitLines, IsPlain;
    var line := "data: " + lines[0];
    FieldIsLine(lines[0]);
    if |lines| == 1 {
      assert CrLfText(lines) + "\r\n\r\n" + rest == line + ("\r\n" + ("" + ("\r\n" + rest)));
      LineThenBreak(line, "" + ("\r\n" + rest));
      LineThenBreak("", rest);
      assert Fields(lines) == [line];
      assert [line] + ([""] + SplitLines(rest)) == [line] + [""] + SplitLines(rest);
    } else {
      var more := CrLfText(lines[1..]) + "\r\n\r\n" + rest;
      assert CrLfText(lines) + "\r\n\r\n" + rest == line + ("\r\n" + more);
      LineThenBreak(line, more);
      LinesOfCrLf(lines[1..], rest);
      FieldsCons(lines);
      assert [line] + (Fields(lines[1..]) + [""] + SplitLines(rest)) ==
             [line] + Fields(lines[1..]) + [""] + SplitLines(rest);
    }
  }

  lemma FieldsCons(lines: seq<string>)
    requires lines != []
    ensures Fields(lines) == ["data: " + lines[0]] + Fields(lines[1..])
  {}

  lemma BlankIsNoData(more: seq<string>)
    ensures DataLines([""] + more) == DataLines(more)
  {
    StripOfStripped("");
    assert ([""] + more)[1..] == more;
    assert [] + DataLines(more) == DataLines(more);
  }

  lemma {:induction false} DataOfCrLf(events: seq<seq<string>>)
    requires forall i :: 0 <= i < |events| ==> ArePlain(events[i])
    ensures DataLines(SplitLines(EncodeCrLf(events))) == Flatten(events)
  {
    hide DataLines, SplitLines, CrLfText, Fields;
    if events != [] {
      var first, more := Fields(events[0]), SplitLines(EncodeCrLf(events[1..]));
      LinesOfCrLf(events[0], EncodeCrLf(events[1..]));
      DataOfCrLf(events[1..]);
      DataOfFields(events[0]);
      DataJoin(first, [""] + more);
      BlankIsNoData(more);
      assert first + [""] + more == first + ([""] + more);
    } else {
      NoLinesNoData();
    }
  }

  lemma NoLinesNoData()
    ensures DataLines(SplitLines("")) == []
  {}

  lemma {:induction false} DataJoin(xs: seq<string>, ys: seq<string>)
    ensures DataLines(xs + ys) == DataLines(xs) + DataLines(ys)
  {
    hide Strip;
    if xs == [] {
      assert xs + ys == ys;
    } else {
      assert (xs + ys)[1..] == xs[1..] + ys;
      DataJoin(xs[1..], ys);
    }
  }

  /** A stream with CRLF line ends has no blank line of two newlines: whatever its events, all their
      lines come out as a single event, so exactly streams of at most one event are decoded. */
  lemma CrLfIsOneEvent(events: seq<seq<string>>)
    requires forall i :: 0 <= i < |events| ==> ArePlain(events[i])
    ensures Decode(EncodeCrLf(events)) == if events == [] then [] else [JoinLines(Flatten(events))]
    ensures Decode(EncodeCrLf(events)) == JoinAll(events) <==> |events| <= 1
  {
    hide Strip, DataLines, SplitLines, CrLfText, JoinLines;
    EncodeCrLfOnly(events);
    DrainOfCrLf(EncodeCrLf(events));
    DataOfCrLf(events);
    JoinAllLength(events);
    FirstOfCrLf(events);
    if |events| == 1 {
      assert Flatten(events) == events[0] + Flatten(events[1..]) == events[0];
      assert JoinAll(events) == [JoinLines(events[0])] + JoinAll(events[1..]);
    }
  }

  lemma DrainOfCrLf(s: string)
    requires OnlyCrLf(s)
    ensures Decode(s) == if Strip(s) != "" then Payload(s) else []
  {
    NoBreakInCrLf(s);
    assert [] + (if Strip(s) != "" then Payload(s) else []) == if Strip(s) != "" then Payload(s) else [];
  }

  lemma FirstOfCrLf(events: seq<seq<string>>)
    requires forall i :: 0 <= i < |events| ==> ArePlain(events[i])
    ensures Strip(EncodeCrLf(events)) != "" <==> events != []
    ensures events != [] ==> Flatten(events) != []
  {
    hide Strip, CrLfText, IsPlain;
    if events == [] {
      NothingToStrip();
    } else {
      StartsWithField(events[0]);
      assert EncodeCrLf(events)[0] == 'd';
      NotBlank(EncodeCrLf(events));
    }
  }

  lemma StartsWithField(lines: seq<string>)
    requires lines != []
    ensures CrLfText(lines) != "" && CrLfText(lines)[0] == 'd'
  {}

  lemma NothingToStrip()
    ensures Strip("") == ""
  {}

  lemma {:induction false} JoinAllLength(events: seq<seq<string>>)
    ensures |JoinAll(events)| == |events|
  {
    if events != [] { JoinAllLength(events[1..]); }
  }

  lemma NotBlank(s: string)
    requires s != "" && !IsSpace(s[0])
    ensures Strip(s) != ""
  {
    StripRightKeepsFirst(s);
  }

  lemma {:induction false} StripRightKeepsFirst(s: string)
    requires s != "" && !IsSpace(s[0])
    ensures StripRight(s) != ""
    decreases |s|
  {
    if IsSpace(s[|s| - 1]) {
      StripRightKeepsFirst(s[..|s| - 1]);
    }
  }
}
