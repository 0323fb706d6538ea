/**
  Server-Sent Events (backend/judge/sse.go).  A stream is a sequence of characters that
  stand for bytes.
*/
module Sse {
  import opened Wrappers
  import opened Text

  const MAX_SSE_LINE_BYTES: nat := 0x40_0000

  datatype Frame = Frame(event: string, id: string, data: string)

  // --- the scanner ---------------------------------------------------------------

  function FirstNewline(s: string): (n: nat)
    ensures n <= |s| && '\n' !in s[..n]
    ensures n < |s| ==> s[n] == '\n'
  {
    if s == "" || s[0] == '\n' then 0 else 1 + FirstNewline(s[1..])
  }

  /** bufio.ScanLines drops one carriage return at the end of a line. */
  function DropCR(line: string): string {
    if line != "" && line[|line| - 1] == '\r' then line[..|line| - 1] else line
  }

  /** The lines the scanner yields; it stops at one that does not fit its buffer with its newline. */
  datatype Scan = Scan(lines: seq<string>, tooLong: bool)

  function ScanLines(stream: string): Scan
    decreases |stream|
  {
    if stream == "" then Scan([], false)
    else
      var n := FirstNewline(stream);
      if n >= MAX_SSE_LINE_BYTES then Scan([], true)
      else if n == |stream| then Scan([DropCR(stream)], false)
      else
        var rest := ScanLines(stream[n + 1..]);
        Scan([DropCR(stream[..n])] + rest.lines, rest.tooLong)
  }

  // --- the parser ----------------------------------------------------------------

  /** The fields collected since the last blank line. */
  datatype Fields = Fields(event: string, id: string, data: string)

  const NO_FIELDS := Fields("", "", "")

  function Flushed(f: Fields): seq<Frame> {
    if f == NO_FIELDS then [] else [Frame(f.event, f.id, f.data)]
  }

  predicate IsComment(line: string) {
    HasPrefix(line, ":")
  }

  /** What a line other than a blank one does to the fields. */
  function Collect(f: Fields, line: string): Fields {
    if IsComment(line) then f
    else if HasPrefix(line, "event:") then f.(event := Trim(line[6..]))
    else if HasPrefix(line, "id:") then f.(id := Trim(line[3..]))
    else if HasPrefix(line, "data:") then
      var value := if HasPrefix(line[5..], " ") then line[6..] else line[5..];
      f.(data := if f.data == "" then value else f.data + "\n" + value)
    else f
  }

  /** The frames a list of lines dispatches, and the fields left over. */
  function Dispatch(f: Fields, lines: seq<string>): (seq<Frame>, Fields)
    decreases |lines|
  {
    if lines == [] then ([], f)
    else if lines[0] == "" then
      var (frames, left) := Dispatch(NO_FIELDS, lines[1..]);
      (Flushed(f) + frames, left)
    else Dispatch(Collect(f, lines[0]), lines[1..])
  }

  /** Every frame of a stream: those dispatched by a blank line, and the one flushed at its end. */
  function Frames(stream: string): seq<Frame> {
    var scan := ScanLines(stream);
    var (frames, left) := Dispatch(NO_FIELDS, scan.lines);
    if scan.tooLong then frames else frames + Flushed(left)
  }

  datatype Outcome = EndOfStream | LineTooLong | HandlerFailed

  /** The frames a handler sees when it fails on frame `failAt`, counting from 0. */
  function Handled(frames: seq<Frame>, failAt: nat): seq<Frame> {
    if failAt < |frames| then frames[..failAt + 1] else frames
  }

  /** flush: hands the collected frame over, unless nothing was collected. */
  method Flush(fields: Fields, before: seq<Frame>, failAt: nat) returns (handled: seq<Frame>, failed: bool)
    requires |before| <= failAt
    ensures handled == before + Flushed(fields)
    ensures failed <==> |handled| == failAt + 1
  {
    handled, failed := before, false;
    if fields.event != "" || fields.id != "" || fields.data != "" {
      handled := handled + [Frame(fields.event, fields.id, fields.data)];
      failed := |before| == failAt;
    }
  }

  /** The frames handed over and those still to come are the frames of the whole input. */
  ghost predicate OnTrack(lines: seq<string>, handled: seq<Frame>, fields: Fields, rest: seq<string>) {
    && Dispatch(NO_FIELDS, lines).0 == handled + Dispatch(fields, rest).0
    && Dispatch(NO_FIELDS, lines).1 == Dispatch(fields, rest).1
  }

  lemma StaysOnTrack(lines: seq<string>, handled: seq<Frame>, fields: Fields, rest: seq<string>)
    requires OnTrack(lines, handled, fields, rest) && rest != []
    ensures rest[0] == "" ==> OnTrack(lines, handled + Flushed(fields), NO_FIELDS, rest[1..])
    ensures rest[0] != "" ==> OnTrack(lines, handled, Collect(fields, rest[0]), rest[1..])
  {
    var more := Dispatch(NO_FIELDS, rest[1..]).0;
    assert handled + (Flushed(fields) + more) == handled + Flushed(fields) + more;
  }

  /** ParseSSE, with a handler that fails on frame `failAt`: no later frame reaches it. */
  method ParseSSE(stream: string, failAt: nat) returns (handled: seq<Frame>, outcome: Outcome)
    ensures handled == Handled(Frames(stream), failAt)
    ensures outcome == if failAt < |Frames(stream)| then HandlerFailed
      else if ScanLines(stream).tooLong then LineTooLong else EndOfStream
  {
    var scan := ScanLines(stream);
    var rest, fields, failed := scan.lines, NO_FIELDS, false;
    handled := [];
    while rest != []
      invariant |handled| <= failAt
      invariant OnTrack(scan.lines, handled, fields, rest)
    {
      StaysOnTrack(scan.lines, handled, fields, rest);
      var line := rest[0];
      rest := rest[1..];
      if line == "" {
        handled, failed := Flush(fields, handled, failAt);
        fields := NO_FIELDS;
        if failed {
          assert handled <= Frames(stream);
          return handled, HandlerFailed;
        }
      } else {
        fields := Collect(fields, line);
      }
    }
    if scan.tooLong {
      return handled, LineTooLong;
    }
    handled, failed := Flush(fields, handled, failAt);
    outcome := if failed then HandlerFailed else EndOfStream;
  }

  // --- round trip ------------------------------------------------------------------

  /**
    FormatSSEFrame: the lines of one frame, of which a reader makes that frame again when the
    stream can carry it.
  */
  method FormatSSEFrame(event: string, id: int, data: string) returns (buf: string)
    ensures buf == Render(FrameLines(event, id, data))
    ensures Carried(Message(event, id, data)) ==>
      Frames(buf) == [Frame(event, Decimal(id), data)] && !ScanLines(buf).tooLong
  {
    OneFrameRoundTrip(Message(event, id, data));
    FormatRendersLines(event, id, data);
    hide Render, FrameLines, Frames, ScanLines, Carried, Decimal;
    buf := "";
    if event != "" {
      buf := buf + "event: " + event + "\n";
    }
    if id > 0 {
      buf := buf + "id: " + Decimal(id) + "\n";
    }
    buf := buf + "data: ";
    buf := buf + data;
    buf := buf + "\n\n";
  }

  /** Lines, each ended by a newline. */
  function Render(lines: seq<string>): string {
    if lines == [] then "" else lines[0] + "\n" + Render(lines[1..])
  }

  function FrameLines(event: string, id: int, data: string): seq<string> {
    (if event == "" then [] else ["event: " + event])
    + (if id > 0 then ["id: " + Decimal(id)] else [])
    + ["data: " + data, ""]
  }

  function Format(event: string, id: int, data: string): string {
    (if event == "" then "" else "event: " + event + "\n")
    + (if id > 0 then "id: " + Decimal(id) + "\n" else "")
    + "data: " + data + "\n\n"
  }

  lemma FormatRendersLines(event: string, id: int, data: string)
    ensures Format(event, id, data) == Render(FrameLines(event, id, data))
  {
    hide Render, Decimal;
    var first := if event == "" then [] else ["event: " + event];
    var second := if id > 0 then ["id: " + Decimal(id)] else [];
    var last := ["data: " + data, ""];
    assert last == ["data: " + data] + [""];
    RenderAppends(first + second, last);
    RenderAppends(first, second);
    RenderAppends(["data: " + data], [""]);
    RenderOne("event: " + event);
    RenderOne("id: " + Decimal(id));
    RenderOne("data: " + data);
    RenderOne("");
    assert "data: " + data + "\n" + ("" + "\n") == "data: " + data + "\n\n";
  }

  lemma RenderOne(line: string)
    ensures Render([line]) == line + "\n" && Render([]) == ""
  {
    assert [line][1..] == [];
  }

  /** A frame as the hub formats it. */
  datatype Message = Message(event: string, seqNo: int, data: string)

  /** The frames a stream can carry unchanged. */
  ghost predicate Carried(m: Message) {
    && m.event != "" && Trimmed(m.event) && '\n' !in m.event
    && m.seqNo > 0
    && '\n' !in m.data && (m.data != "" ==> m.data[|m.data| - 1] != '\r')
    && |m.event| + 7 < MAX_SSE_LINE_BYTES && |Decimal(m.seqNo)| + 4 < MAX_SSE_LINE_BYTES
    && |m.data| + 6 < MAX_SSE_LINE_BYTES
  }

  ghost function MessageLines(ms: seq<Message>): seq<string> {
    if ms == [] then [] else FrameLines(ms[0].event, ms[0].seqNo, ms[0].data) + MessageLines(ms[1..])
  }

  ghost function MessageFrames(ms: seq<Message>): seq<Frame> {
    if ms == [] then []
    else [Frame(ms[0].event, Decimal(ms[0].seqNo), ms[0].data)] + MessageFrames(ms[1..])
  }

  ghost function FormatAll(ms: seq<Message>): string {
    if ms == [] then "" else Format(ms[0].event, ms[0].seqNo, ms[0].data) + FormatAll(ms[1..])
  }

  /** The lines that are not comments. */
  ghost function Uncommented(lines: seq<string>): seq<string> {
    if lines == [] then []
    else if IsComment(lines[0]) then Uncommented(lines[1..])
    else [lines[0]] + Uncommented(lines[1..])
  }

  /** The scanner hands the line over unchanged. */
  ghost predicate Scannable(line: string) {
    '\n' !in line && |line| < MAX_SSE_LINE_BYTES && DropCR(line) == line
  }

  lemma {:induction false} FirstNewlineEnds(line: string, rest: string)
    requires '\n' !in line
    ensures FirstNewline(line + "\n" + rest) == |line|
  {
    if line == "" {
      assert (line + "\n" + rest)[0] == '\n';
    } else {
      assert (line + "\n" + rest)[1..] == line[1..] + "\n" + rest;
      FirstNewlineEnds(line[1..], rest);
    }
  }

  lemma {:induction false} ScanRendered(lines: seq<string>)
    requires forall i :: 0 <= i < |lines| ==> Scannable(lines[i])
    ensures ScanLines(Render(lines)) == Scan(lines, false)
  {
    if lines != [] {
      var stream := Render(lines);
      FirstNewlineEnds(lines[0], Render(lines[1..]));
      assert stream[..|lines[0]|] == lines[0] && stream[|lines[0]| + 1..] == Render(lines[1..]);
      ScanRendered(lines[1..]);
    }
  }

  /** Comments, wherever they stand, change nothing. */
  lemma {:induction false} CommentsIgnored(f: Fields, lines: seq<string>)
    ensures Dispatch(f, lines) == Dispatch(f, Uncommented(lines))
    decreases |lines|
  {
    if lines != [] {
      var rest := Uncommented(lines[1..]);
      if IsComment(lines[0]) {
        CommentsIgnored(f, lines[1..]);
      } else {
        assert ([lines[0]] + rest)[1..] == rest;
        if lines[0] == "" {
          CommentsIgnored(NO_FIELDS, lines[1..]);
        } else {
          CommentsIgnored(Collect(f, lines[0]), lines[1..]);
        }
      }
    }
  }

  lemma TrimAfterSpace(s: string)
    requires Trimmed(s)
    ensures Trim(" " + s) == s
  {
    assert (" " + s)[1..] == s;
    TrimIsTrimmed(s);
  }

  lemma DecimalTrimmed(n: int)
    requires n > 0
    ensures Trimmed(Decimal(n)) && Decimal(n) != ""
  {
  }

  lemma CollectEvent(f: Fields, event: string)
    requires Trimmed(event)
    ensures Collect(f, "event: " + event) == f.(event := event)
  {
    var line := "event: " + event;
    assert line[6..] == " " + event && line[..6] == "event:";
    assert line[0] == 'e';
    TrimAfterSpace(event);
  }

  lemma CollectId(f: Fields, n: int)
    requires n > 0
    ensures Collect(f, "id: " + Decimal(n)) == f.(id := Decimal(n))
  {
    var line := "id: " + Decimal(n);
    assert line[3..] == " " + Decimal(n) && line[..3] == "id:";
    DecimalTrimmed(n);
    TrimAfterSpace(Decimal(n));
    assert line[0] == 'i';
  }

  lemma CollectData(f: Fields, data: string)
    requires f.data == ""
    ensures Collect(f, "data: " + data) == f.(data := data)
  {
    var line := "data: " + data;
    assert line[5..] == " " + data && line[6..] == data && line[..5] == "data:";
    assert line[5..][..1] == " ";
    assert line[0] == 'd';
  }

  lemma DispatchOne(m: Message, rest: seq<string>)
    requires Carried(m)
    ensures Dispatch(NO_FIELDS, FrameLines(m.event, m.seqNo, m.data) + rest)
         == ([Frame(m.event, Decimal(m.seqNo), m.data)] + Dispatch(NO_FIELDS, rest).0, Dispatch(NO_FIELDS, rest).1)
  {
    var a, b, c := "event: " + m.event, "id: " + Decimal(m.seqNo), "data: " + m.data;
    var f0 := NO_FIELDS;
    var f1 := f0.(event := m.event);
    var f2 := f1.(id := Decimal(m.seqNo));
    var f3 := f2.(data := m.data);
    CollectEvent(f0, m.event);
    CollectId(f1, m.seqNo);
    CollectData(f2, m.data);
    var l3 := [""] + rest;
    var l2 := [c] + l3;
    var l1 := [b] + l2;
    assert FrameLines(m.event, m.seqNo, m.data) + rest == [a] + l1;
    assert l3[1..] == rest && l2[1..] == l3 && l1[1..] == l2 && ([a] + l1)[1..] == l1;
    assert Dispatch(f3, l3) == (Flushed(f3) + Dispatch(NO_FIELDS, rest).0, Dispatch(NO_FIELDS, rest).1);
    assert Dispatch(f2, l2) == Dispatch(f3, l3);
    assert Dispatch(f1, l1) == Dispatch(f2, l2);
  }

  lemma {:induction false} DispatchMessages(ms: seq<Message>)
    requires forall i :: 0 <= i < |ms| ==> Carried(ms[i])
    ensures Dispatch(NO_FIELDS, MessageLines(ms)) == (MessageFrames(ms), NO_FIELDS)
  {
    if ms != [] {
      DispatchMessages(ms[1..]);
      DispatchOne(ms[0], MessageLines(ms[1..]));
    }
  }

  /**
    Round trip.  Take the lines of any formatted frames and insert comment lines anywhere:
    parsing the stream gives back exactly those frames, in order.
  */
  lemma RoundTrip(ms: seq<Message>, lines: seq<string>)
    requires forall i :: 0 <= i < |ms| ==> Carried(ms[i])
    requires Uncommented(lines) == MessageLines(ms)
    requires forall i :: 0 <= i < |lines| && IsComment(lines[i]) ==> Scannable(lines[i])
    ensures Frames(Render(lines)) == MessageFrames(ms)
    ensures !ScanLines(Render(lines)).tooLong
  {
    forall i | 0 <= i < |lines| ensures Scannable(lines[i]) {
      if !IsComment(lines[i]) {
        UncommentedKeeps(lines, i);
        MessageLinesScannable(ms, lines[i]);
      }
    }
    ScanRendered(lines);
    CommentsIgnored(NO_FIELDS, lines);
    DispatchMessages(ms);
  }

  lemma {:induction false} UncommentedKeeps(lines: seq<string>, i: nat)
    requires i < |lines| && !IsComment(lines[i])
    ensures lines[i] in Uncommented(lines)
  {
    if i > 0 {
      UncommentedKeeps(lines[1..], i - 1);
    }
  }

  lemma {:induction false} MessageLinesScannable(ms: seq<Message>, line: string)
    requires forall i :: 0 <= i < |ms| ==> Carried(ms[i])
    requires line in MessageLines(ms)
    ensures Scannable(line)
  {
    var m := ms[0];
    if line in FrameLines(m.event, m.seqNo, m.data) {
      DecimalTrimmed(m.seqNo);
      DecimalCharacters(m.seqNo);
      assert line == "event: " + m.event || line == "id: " + Decimal(m.seqNo) || line == "data: " + m.data || line == "";
    } else {
      MessageLinesScannable(ms[1..], line);
    }
  }

  lemma {:induction false} RenderAppends(a: seq<string>, b: seq<string>)
    ensures Render(a + b) == Render(a) + Render(b)
  {
    if a == [] {
      assert a + b == b;
    } else {
      RenderAppends(a[1..], b);
      assert (a + b)[1..] == a[1..] + b;
    }
  }

  lemma {:induction false} FormatAllRenders(ms: seq<Message>)
    ensures FormatAll(ms) == Render(MessageLines(ms))
  {
    if ms != [] {
      FormatAllRenders(ms[1..]);
      FormatRendersLines(ms[0].event, ms[0].seqNo, ms[0].data);
      RenderAppends(FrameLines(ms[0].event, ms[0].seqNo, ms[0].data), MessageLines(ms[1..]));
    }
  }

  /** In particular the frames one after the other parse back to themselves. */
  lemma FormattedFramesRoundTrip(ms: seq<Message>)
    requires forall i :: 0 <= i < |ms| ==> Carried(ms[i])
    ensures Frames(FormatAll(ms)) == MessageFrames(ms)
  {
    FormatAllRenders(ms);
    NoCommentsInMessages(ms);
    RoundTrip(ms, MessageLines(ms));
  }

  lemma OneFrameRoundTrip(m: Message)
    ensures Carried(m) ==>
      && Frames(Render(FrameLines(m.event, m.seqNo, m.data))) == [Frame(m.event, Decimal(m.seqNo), m.data)]
      && !ScanLines(Render(FrameLines(m.event, m.seqNo, m.data))).tooLong
  {
    if Carried(m) {
      var lines := FrameLines(m.event, m.seqNo, m.data);
      assert MessageLines([m]) == lines + MessageLines([m][1..]) == lines;
      assert MessageFrames([m]) == [Frame(m.event, Decimal(m.seqNo), m.data)] + MessageFrames([m][1..]);
      NoCommentsInMessages([m]);
      RoundTrip([m], lines);
    }
  }

  lemma NoCommentsInFrame(m: Message)
    ensures forall i :: 0 <= i < |FrameLines(m.event, m.seqNo, m.data)| ==> !IsComment(FrameLines(m.event, m.seqNo, m.data)[i])
  {
    hide Decimal;
    var head := FrameLines(m.event, m.seqNo, m.data);
    assert forall i :: 0 <= i < |head| ==> head[i] == "" || head[i][0] in "eid";
  }

  lemma {:induction false} NoCommentsInMessages(ms: seq<Message>)
    ensures forall i :: 0 <= i < |MessageLines(ms)| ==> !IsComment(MessageLines(ms)[i])
    ensures Uncommented(MessageLines(ms)) == MessageLines(ms)
  {
    if ms != [] {
      hide FrameLines, IsComment, Uncommented;
      NoCommentsInMessages(ms[1..]);
      NoCommentsInFrame(ms[0]);
      assert MessageLines(ms) == FrameLines(ms[0].event, ms[0].seqNo, ms[0].data) + MessageLines(ms[1..]);
    }
    NothingUncommented(MessageLines(ms));
  }

  lemma {:induction false} NothingUncommented(lines: seq<string>)
    ensures (forall i :: 0 <= i < |lines| ==> !IsComment(lines[i])) ==> Uncommented(lines) == lines
  {
    if lines != [] {
      NothingUncommented(lines[1..]);
    }
  }

  // --- several data lines, and frames cut off -------------------------------------------

  function DataLines(values: seq<string>): seq<string> {
    seq(|values|, i requires 0 <= i < |values| => "data: " + values[i])
  }

  /** What several data lines make: joined by line feeds, empty ones at the front not counted. */
  function JoinedData(values: seq<string>): string {
    if values == [] then ""
    else if values[0] == "" then JoinedData(values[1..])
    else Join(values, '\n')
  }

  ghost function DataAfter(data: string, values: seq<string>): string
    decreases |values|
  {
    if values == [] then data
    else DataAfter(if data == "" then values[0] else data + "\n" + values[0], values[1..])
  }

  lemma JoinMerged(a: string, b: string, rest: seq<string>)
    ensures Join([a + "\n" + b] + rest, '\n') == a + "\n" + Join([b] + rest, '\n')
  {
    var merged, plain := [a + "\n" + b] + rest, [b] + rest;
    assert merged[1..] == rest && plain[1..] == rest;
    if rest != [] {
      assert Join(merged, '\n') == (a + "\n" + b) + ['\n'] + Join(rest, '\n');
      assert Join(plain, '\n') == b + ['\n'] + Join(rest, '\n');
      assert (a + "\n" + b) + ['\n'] + Join(rest, '\n') == a + "\n" + (b + ['\n'] + Join(rest, '\n'));
    }
  }

  lemma {:induction false} DataAfterSome(data: string, values: seq<string>)
    requires data != ""
    ensures DataAfter(data, values) == Join([data] + values, '\n')
    decreases |values|
  {
    if values != [] {
      DataAfterSome(data + "\n" + values[0], values[1..]);
      JoinMerged(data, values[0], values[1..]);
      assert [values[0]] + values[1..] == values;
      assert ([data] + values)[1..] == values;
    }
  }

  lemma {:induction false} DataAfterNone(values: seq<string>)
    ensures DataAfter("", values) == JoinedData(values)
  {
    if values != [] {
      if values[0] == "" {
        DataAfterNone(values[1..]);
      } else {
        DataAfterSome(values[0], values[1..]);
        assert [values[0]] + values[1..] == values;
      }
    }
  }

  lemma CollectDataLine(f: Fields, value: string)
    ensures Collect(f, "data: " + value) == f.(data := if f.data == "" then value else f.data + "\n" + value)
  {
    var line := "data: " + value;
    assert line[5..] == " " + value && line[6..] == value && line[..5] == "data:";
    assert line[5..][..1] == " ";
    assert line[0] == 'd';
  }

  lemma {:induction false} DispatchData(f: Fields, values: seq<string>, rest: seq<string>)
    ensures Dispatch(f, DataLines(values) + rest) == Dispatch(f.(data := DataAfter(f.data, values)), rest)
    decreases |values|
  {
    if values == [] {
      assert DataLines(values) + rest == rest;
    } else {
      var lines := DataLines(values) + rest;
      assert lines[0] == "data: " + values[0] && lines[1..] == DataLines(values[1..]) + rest;
      CollectDataLine(f, values[0]);
      DispatchData(Collect(f, lines[0]), values[1..], rest);
    }
  }

  /** A frame with an event, an id and any number of data lines, its blank line there or not. */
  function FrameOf(event: string, seqNo: int, values: seq<string>, closed: bool): seq<string> {
    ["event: " + event, "id: " + Decimal(seqNo)] + DataLines(values) + if closed then [""] else []
  }

  lemma DispatchFrame(event: string, seqNo: int, values: seq<string>, closed: bool)
    requires event != "" && Trimmed(event) && seqNo > 0
    ensures var (frames, left) := Dispatch(NO_FIELDS, FrameOf(event, seqNo, values, closed));
      frames + Flushed(left) == [Frame(event, Decimal(seqNo), JoinedData(values))]
  {
    hide Collect, Decimal;
    var id := Decimal(seqNo);
    var end := if closed then [""] else [];
    var data := DataLines(values) + end;
    var second := ["id: " + id] + data;
    var lines := ["event: " + event] + second;
    assert FrameOf(event, seqNo, values, closed) == lines;
    assert lines[1..] == second && second[1..] == data;
    var f1 := NO_FIELDS.(event := event);
    var f2 := f1.(id := id);
    var f3 := f2.(data := JoinedData(values));
    CollectEvent(NO_FIELDS, event);
    CollectId(f1, seqNo);
    assert Dispatch(NO_FIELDS, lines) == Dispatch(f1, second);
    assert Dispatch(f1, second) == Dispatch(f2, data);
    DispatchData(f2, values, end);
    DataAfterNone(values);
    assert Dispatch(f2, data) == Dispatch(f3, end);
    if closed {
      assert end[1..] == [];
      assert Dispatch(NO_FIELDS, []) == ([], NO_FIELDS);
    }
  }

  lemma {:induction false} DispatchAppends(ms: seq<Message>, rest: seq<string>)
    requires forall i :: 0 <= i < |ms| ==> Carried(ms[i])
    ensures Dispatch(NO_FIELDS, MessageLines(ms) + rest)
         == (MessageFrames(ms) + Dispatch(NO_FIELDS, rest).0, Dispatch(NO_FIELDS, rest).1)
  {
    hide Dispatch, FrameLines, Decimal, Carried;
    if ms == [] {
      assert MessageLines(ms) + rest == rest;
      assert MessageFrames(ms) + Dispatch(NO_FIELDS, rest).0 == Dispatch(NO_FIELDS, rest).0;
    } else {
      DispatchAppends(ms[1..], rest);
      DispatchOne(ms[0], MessageLines(ms[1..]) + rest);
      var head := FrameLines(ms[0].event, ms[0].seqNo, ms[0].data);
      assert MessageLines(ms) + rest == head + (MessageLines(ms[1..]) + rest);
      var first, more := [Frame(ms[0].event, Decimal(ms[0].seqNo), ms[0].data)], Dispatch(NO_FIELDS, rest).0;
      assert first + (MessageFrames(ms[1..]) + more) == MessageFrames(ms) + more;
    }
  }

  /** The line fits a stream: no line feed, no carriage return at its end, within the limit. */
  ghost predicate CarriedLines(event: string, seqNo: int, values: seq<string>) {
    forall i :: 0 <= i < |FrameOf(event, seqNo, values, true)| ==> Scannable(FrameOf(event, seqNo, values, true)[i])
  }

  /**
    The last frame of a stream, after any others: its data lines are joined by line feeds, and
    it is handed over whether or not its blank line came before the stream was cut off.
  */
  lemma LastFrameIsRead(ms: seq<Message>, event: string, seqNo: int, values: seq<string>, closed: bool)
    requires forall i :: 0 <= i < |ms| ==> Carried(ms[i])
    requires event != "" && Trimmed(event) && seqNo > 0 && CarriedLines(event, seqNo, values)
    ensures Frames(Render(MessageLines(ms) + FrameOf(event, seqNo, values, closed)))
         == MessageFrames(ms) + [Frame(event, Decimal(seqNo), JoinedData(values))]
  {
    hide Dispatch, FrameLines, Scannable, Carried, JoinedData;
    var last := FrameOf(event, seqNo, values, closed);
    var lines := MessageLines(ms) + last;
    forall i | 0 <= i < |lines| ensures Scannable(lines[i]) {
      if i < |MessageLines(ms)| {
        MessageLinesScannable(ms, lines[i]);
      } else {
        assert lines[i] == FrameOf(event, seqNo, values, true)[i - |MessageLines(ms)|];
      }
    }
    ScanRendered(lines);
    DispatchAppends(ms, last);
    DispatchFrame(event, seqNo, values, closed);
    var (frames, left) := Dispatch(NO_FIELDS, last);
    assert MessageFrames(ms) + frames + Flushed(left) == MessageFrames(ms) + (frames + Flushed(left));
  }

  /** A stream cut off in front of its last line feed is read as if it were there. */
  lemma {:induction false} CutLineIsRead(lines: seq<string>, last: string)
    requires forall i :: 0 <= i < |lines| ==> Scannable(lines[i])
    requires Scannable(last) && last != ""
    ensures ScanLines(Render(lines) + last) == ScanLines(Render(lines + [last]))
    ensures Frames(Render(lines) + last) == Frames(Render(lines + [last]))
  {
    hide Dispatch;
    ScanCut(lines, last);
    ScanRendered(lines + [last]);
  }

  lemma ScanFirst(line: string, rest: string)
    requires Scannable(line)
    ensures ScanLines(line + "\n" + rest) == Scan([line] + ScanLines(rest).lines, ScanLines(rest).tooLong)
  {
    var stream := line + "\n" + rest;
    FirstNewlineEnds(line, rest);
    assert stream[..|line|] == line && stream[|line| + 1..] == rest;
  }

  lemma ScanLast(line: string)
    requires Scannable(line) && line != ""
    ensures ScanLines(line) == Scan([line], false)
  {
    NoNewline(line);
  }

  lemma {:induction false} ScanCut(lines: seq<string>, last: string)
    requires forall i :: 0 <= i < |lines| ==> Scannable(lines[i])
    requires Scannable(last) && last != ""
    ensures ScanLines(Render(lines) + last) == Scan(lines + [last], false)
  {
    hide Scannable, ScanLines;
    if lines == [] {
      assert Render(lines) + last == last;
      ScanLast(last);
    } else {
      var rest := Render(lines[1..]) + last;
      assert Render(lines) + last == lines[0] + "\n" + rest;
      ScanFirst(lines[0], rest);
      ScanCut(lines[1..], last);
      assert [lines[0]] + (lines[1..] + [last]) == lines + [last];
    }
  }

  lemma {:induction false} NoNewline(s: string)
    requires '\n' !in s
    ensures FirstNewline(s) == |s|
  {
    if s != "" {
      NoNewline(s[1..]);
    }
  }

  // --- line ends and lines that are too long ----------------------------------------------

  function RenderWithReturns(lines: seq<string>): string {
    if lines == [] then "" else lines[0] + "\r\n" + RenderWithReturns(lines[1..])
  }

  lemma ScanReturn(line: string, rest: string)
    requires Scannable(line) && |line| + 1 < MAX_SSE_LINE_BYTES
    ensures ScanLines(line + "\r\n" + rest) == Scan([line] + ScanLines(rest).lines, ScanLines(rest).tooLong)
  {
    var stream := line + "\r\n" + rest;
    assert stream == (line + "\r") + "\n" + rest;
    FirstNewlineEnds(line + "\r", rest);
    assert stream[..|line| + 1] == line + "\r" && stream[|line| + 2..] == rest;
    assert DropCR(line + "\r") == line;
  }

  /** A carriage return in front of every line feed changes nothing. */
  lemma {:induction false} ReturnsAreDropped(lines: seq<string>)
    requires forall i :: 0 <= i < |lines| ==> Scannable(lines[i]) && |lines[i]| + 1 < MAX_SSE_LINE_BYTES
    ensures ScanLines(RenderWithReturns(lines)) == ScanLines(Render(lines))
    ensures Frames(RenderWithReturns(lines)) == Frames(Render(lines))
  {
    hide Scannable, Dispatch, ScanLines;
    if lines != [] {
      ReturnsAreDropped(lines[1..]);
      ScanReturn(lines[0], RenderWithReturns(lines[1..]));
      ScanFirst(lines[0], Render(lines[1..]));
      assert lines[0] + "\n" + Render(lines[1..]) == Render(lines);
      assert lines[0] + "\r\n" + RenderWithReturns(lines[1..]) == RenderWithReturns(lines);
    } else {
      assert RenderWithReturns(lines) == Render(lines);
    }
  }

  lemma {:induction false} NewlineIsLater(s: string, n: nat)
    requires n <= |s| && '\n' !in s[..n]
    ensures FirstNewline(s) >= n
  {
    if n > 0 {
      assert s[0] == s[..n][0] && s[1..][..n - 1] == s[..n][1..];
      NewlineIsLater(s[1..], n - 1);
    }
  }

  lemma ScanStops(long: string)
    requires |long| >= MAX_SSE_LINE_BYTES && '\n' !in long[..MAX_SSE_LINE_BYTES]
    ensures ScanLines(long) == Scan([], true)
  {
    NewlineIsLater(long, MAX_SSE_LINE_BYTES);
  }

  lemma {:induction false} ScanUntilLong(lines: seq<string>, long: string)
    requires forall i :: 0 <= i < |lines| ==> Scannable(lines[i])
    requires |long| >= MAX_SSE_LINE_BYTES && '\n' !in long[..MAX_SSE_LINE_BYTES]
    ensures ScanLines(Render(lines) + long) == Scan(lines, true)
  {
    hide Scannable, ScanLines;
    if lines == [] {
      assert Render(lines) + long == long;
      ScanStops(long);
    } else {
      var rest := Render(lines[1..]) + long;
      assert Render(lines) + long == lines[0] + "\n" + rest;
      ScanFirst(lines[0], rest);
      ScanUntilLong(lines[1..], long);
    }
  }

  /**
    A line of the limit or more ends the stream: the frames before it have been handed over,
    what is collected of a last one is not.
  */
  lemma LongLineEndsStream(ms: seq<Message>, started: seq<string>, long: string)
    requires forall i :: 0 <= i < |ms| ==> Carried(ms[i])
    requires forall i :: 0 <= i < |started| ==> Scannable(started[i]) && started[i] != ""
    requires |long| >= MAX_SSE_LINE_BYTES && '\n' !in long[..MAX_SSE_LINE_BYTES]
    ensures ScanLines(Render(MessageLines(ms) + started) + long).tooLong
    ensures Frames(Render(MessageLines(ms) + started) + long) == MessageFrames(ms)
  {
    hide Dispatch, Scannable, Carried, ScanLines;
    var lines := MessageLines(ms) + started;
    forall i | 0 <= i < |lines| ensures Scannable(lines[i]) {
      if i < |MessageLines(ms)| {
        MessageLinesScannable(ms, lines[i]);
      }
    }
    ScanUntilLong(lines, long);
    DispatchAppends(ms, started);
    NothingDispatched(NO_FIELDS, started);
    assert MessageFrames(ms) + [] == MessageFrames(ms);
  }

  lemma {:induction false} NothingDispatched(f: Fields, lines: seq<string>)
    requires forall i :: 0 <= i < |lines| ==> lines[i] != ""
    ensures Dispatch(f, lines).0 == []
    decreases |lines|
  {
    hide Collect;
    if lines != [] {
      NothingDispatched(Collect(f, lines[0]), lines[1..]);
    }
  }
}
