/** Server-sent-event framing: the frames the server writes (internal/api/handlers.go) and the
    incremental parser of the browser (ui/src/hooks/api/useUploadProgress.ts). JSON is a pair
    of functions. */
module SseStream {
  import opened Collections

  /** What JSON.parse makes of a payload: a syntax error, a value that is no upload event, or
      an event of type E. */
  datatype Json<E> = Malformed | Other | IsEvent(evt: E)

  /** An event handed to the store; plain text becomes a message. */
  datatype UiEvent<E> = FromJson(evt: E) | Message(text: string, done: bool, error: Option<string>)

  // ---------- frames ----------

  predicate SepAt(s: string, i: nat) {
    i + 1 < |s| && s[i] == '\n' && s[i + 1] == '\n'
  }

  /** buffer.indexOf("\n\n", from). */
  function FirstSep(s: string, from: nat): (r: Option<nat>)
    ensures r.Some? ==> from <= r.value && SepAt(s, r.value) && forall i: nat :: from <= i < r.value ==> !SepAt(s, i)
    ensures r.None? ==> forall i: nat :: from <= i ==> !SepAt(s, i)
    decreases |s| - from
  {
    if from >= |s| then None
    else if SepAt(s, from) then Some(from)
    else FirstSep(s, from + 1)
  }

  /** The complete frames of a buffer. */
  function Frames(s: string): seq<string>
    decreases |s|
  {
    match FirstSep(s, 0)
    case None => []
    case Some(i) => [s[..i]] + Frames(s[i + 2..])
  }

  /** The unfinished tail of a buffer. */
  function Rest(s: string): string
    decreases |s|
  {
    match FirstSep(s, 0)
    case None => s
    case Some(i) => Rest(s[i + 2..])
  }

  lemma SepUnique(s: string, i: nat)
    requires SepAt(s, i) && forall j: nat :: j < i ==> !SepAt(s, j)
    ensures FirstSep(s, 0) == Some(i)
  {
  }

  lemma FirstSepAppend(a: string, b: string, i: nat)
    requires FirstSep(a, 0) == Some(i)
    ensures FirstSep(a + b, 0) == Some(i)
    ensures (a + b)[..i] == a[..i] && (a + b)[i + 2..] == a[i + 2..] + b
  {
    forall j: nat | j < i ensures !SepAt(a + b, j) {
      assert !SepAt(a, j) && (a + b)[j] == a[j] && (a + b)[j + 1] == a[j + 1];
    }
    assert SepAt(a, i) && (a + b)[i] == a[i] && (a + b)[i + 1] == a[i + 1];
    SepUnique(a + b, i);
  }

  /** Text that arrives later never changes the frames already complete. */
  lemma {:induction false} FramesAppend(a: string, b: string)
    ensures Frames(a + b) == Frames(a) + Frames(Rest(a) + b)
    ensures Rest(a + b) == Rest(Rest(a) + b)
    decreases |a|
  {
    match FirstSep(a, 0)
    case None => TailOnly(a);
    case Some(i) =>
      FirstSepAppend(a, b, i);
      hide FirstSep, Frames, Rest;
      Unroll(a, i);
      Unroll(a + b, i);
      FramesAppend(a[i + 2..], b);
      assert forall x: seq<string>, y :: ([a[..i]] + x) + y == [a[..i]] + (x + y);
  }

  /** Re-scanning a tail finds nothing. */
  lemma {:induction false} RestSettled(s: string)
    ensures FirstSep(Rest(s), 0).None?
    decreases |s|
  {
    match FirstSep(s, 0)
    case None =>
    case Some(i) => RestSettled(s[i + 2..]);
  }

  function Unsplit(frames: seq<string>): string {
    if frames == [] then "" else frames[0] + "\n\n" + Unsplit(frames[1..])
  }

  /** Nothing is lost and nothing made up: the frames with their blank lines, and then the tail,
      are the buffer again, and neither a frame nor the tail has a blank line in it. */
  lemma {:induction false} FramesAreTheBuffer(s: string)
    ensures Unsplit(Frames(s)) + Rest(s) == s
    ensures forall k :: 0 <= k < |Frames(s)| ==> FirstSep(Frames(s)[k], 0).None?
    ensures FirstSep(Rest(s), 0).None?
    decreases |s|
  {
    match FirstSep(s, 0)
    case None => TailOnly(s);
    case Some(i) =>
      hide FirstSep, Frames, Rest;
      Unroll(s, i);
      NoSepBefore(s, i);
      FramesAreTheBuffer(s[i + 2..]);
      FirstFrameBack(s, i);
  }

  lemma NoSepBefore(s: string, i: nat)
    requires FirstSep(s, 0) == Some(i)
    ensures i + 2 <= |s| && FirstSep(s[..i], 0).None? && s == s[..i] + "\n\n" + s[i + 2..]
  {
    forall j: nat ensures !SepAt(s[..i], j) {
      if j < i {
        assert !SepAt(s, j);
      }
    }
    assert SepAt(s, i);
  }

  lemma FirstFrameBack(s: string, i: nat)
    requires i + 2 <= |s| && s == s[..i] + "\n\n" + s[i + 2..] && Frames(s) == [s[..i]] + Frames(s[i + 2..])
    requires Rest(s) == Rest(s[i + 2..]) && Unsplit(Frames(s[i + 2..])) + Rest(s[i + 2..]) == s[i + 2..]
    ensures Unsplit(Frames(s)) + Rest(s) == s
  {
    hide Frames, Rest;
    var more := Frames(s[i + 2..]);
    UnsplitFirst(s[..i], more);
    hide Unsplit;
    Regroup(s[..i] + "\n\n", Unsplit(more), Rest(s));
  }

  lemma UnsplitFirst(frame: string, more: seq<string>)
    ensures Unsplit([frame] + more) == frame + "\n\n" + Unsplit(more)
  {
    assert ([frame] + more)[1..] == more;
  }

  lemma Regroup(a: string, b: string, c: string)
    ensures (a + b) + c == a + (b + c)
  {
  }

  // ---------- one frame ----------

  /** Characters String.prototype.trim removes. */
  predicate White(c: char) {
    c in {' ', '\t', '\n', '\r', '\U{B}', '\U{C}', '\U{A0}', '\U{1680}', '\U{2028}', '\U{2029}', '\U{202F}', '\U{205F}',
          '\U{3000}', '\U{FEFF}'}
    || '\U{2000}' <= c <= '\U{200A}'
  }

  function TrimLeft(s: string): string {
    if s != [] && White(s[0]) then TrimLeft(s[1..]) else s
  }

  function TrimRight(s: string): string {
    if s != [] && White(s[|s| - 1]) then TrimRight(s[..|s| - 1]) else s
  }

  function Trim(s: string): string {
    TrimRight(TrimLeft(s))
  }

  function StartsWith(s: string, p: string): bool {
    p <= s
  }

  /** Position of the first newline, or the length. */
  function LineEnd(s: string): (n: nat)
    ensures n <= |s| && '\n' !in s[..n] && (n < |s| ==> s[n] == '\n')
  {
    if s == [] || s[0] == '\n' then 0
    else
      var n := 1 + LineEnd(s[1..]);
      assert s[..n] == [s[0]] + s[1..][..n - 1];
      n
  }

  /** frame.split("\n"). */
  function Lines(s: string): seq<string>
    decreases |s|
  {
    var n := LineEnd(s);
    if n == |s| then [s] else [s[..n]] + Lines(s[n + 1..])
  }

  const DATA := "data:"
  const DATA_SPACE := "data: "

  /** The data a line carries, at most one. */
  function DataOf(line: string): seq<string> {
    if StartsWith(line, DATA_SPACE) then [line[6..]]
    else if StartsWith(line, DATA) then [line[5..]] else []
  }

  function DataLines(lines: seq<string>): seq<string> {
    if lines == [] then [] else DataOf(lines[0]) + DataLines(lines[1..])
  }

  function Join(lines: seq<string>): string {
    if lines == [] then "" else if |lines| == 1 then lines[0] else lines[0] + "\n" + Join(lines[1..])
  }

  function Slice(s: string, n: nat): string {
    if n <= |s| then s[n..] else ""
  }

  const ERROR_PREFIX := "error:"

  /** The event of a payload: none for other JSON values, a message for plain text. */
  function PayloadEvents<E>(payload: string, parse: string -> Json<E>): seq<UiEvent<E>> {
    match parse(payload)
    case IsEvent(e) => [FromJson(e)]
    case Other => []
    case Malformed =>
      var failed := StartsWith(payload, ERROR_PREFIX);
      [Message(payload, payload == "done" || failed, if failed then Some(Trim(Slice(payload, 7))) else None)]
  }

  function FrameEvents<E>(frame: string, parse: string -> Json<E>): seq<UiEvent<E>> {
    var data := DataLines(Lines(frame));
    if data == [] then []
    else
      var payload := Trim(Join(data));
      if payload == "" then [] else PayloadEvents(payload, parse)
  }

  function EventsOf<E>(frames: seq<string>, parse: string -> Json<E>): seq<UiEvent<E>> {
    if frames == [] then [] else FrameEvents(frames[0], parse) + EventsOf(frames[1..], parse)
  }

  lemma {:induction false} EventsAppend<E>(a: seq<string>, b: seq<string>, parse: string -> Json<E>)
    ensures EventsOf(a + b, parse) == EventsOf(a, parse) + EventsOf(b, parse)
  {
    hide FrameEvents;
    if a == [] {
      assert a + b == b;
    } else {
      EventsAppend(a[1..], b, parse);
      EventsFirst(a, parse);
      EventsFirst(a + b, parse);
      hide EventsOf;
      HeadAppend(a, b, []);
    }
  }

  lemma EventsFirst<E>(a: seq<string>, parse: string -> Json<E>)
    requires a != []
    ensures EventsOf(a, parse) == FrameEvents(a[0], parse) + EventsOf(a[1..], parse)
  {
  }

  // ---------- frames of several lines ----------

  /** Splitting a frame at its newlines gives back the lines it was joined from. */
  lemma {:induction false} LinesOfJoin(lines: seq<string>)
    requires lines != [] && forall i :: 0 <= i < |lines| ==> '\n' !in lines[i]
    ensures Lines(Join(lines)) == lines
  {
    if |lines| == 1 {
      OneLine(lines[0]);
    } else {
      LinesOfJoin(lines[1..]);
      FirstLine(lines[0], Join(lines[1..]));
      hide Lines;
      assert lines == [lines[0]] + lines[1..];
    }
  }

  lemma FirstLine(line: string, more: string)
    requires '\n' !in line
    ensures Lines(line + "\n" + more) == [line] + Lines(more)
  {
    var s := line + "\n" + more;
    LineEndIs(line, more);
    assert s[..|line|] == line && s[|line| + 1..] == more;
  }

  lemma {:induction false} LineEndIs(line: string, more: string)
    requires '\n' !in line
    ensures LineEnd(line + "\n" + more) == |line|
  {
    var s := line + "\n" + more;
    if line != [] {
      assert s[0] == line[0] && s[0] != '\n';
      LineEndIs(line[1..], more);
      assert s[1..] == line[1..] + "\n" + more;
    }
  }

  /** A line says data with or without a space; any other field, and a comment, says nothing. */
  lemma LineSays(line: string, value: string)
    ensures DataOf(DATA_SPACE + value) == [value]
    ensures !(" " <= value) ==> DataOf(DATA + value) == [value]
    ensures !(DATA <= line) ==> DataOf(line) == []
  {
    assert (DATA_SPACE + value)[6..] == value && (DATA + value)[5..] == value;
    if DATA_SPACE <= DATA + value {
      assert (DATA + value)[5] == ' ';
    }
    if DATA_SPACE <= line {
      assert DATA == DATA_SPACE[..5];
    }
  }

  lemma DataLinesFirst(line: string, more: seq<string>)
    ensures DataLines([line] + more) == DataOf(line) + DataLines(more)
  {
    assert ([line] + more)[1..] == more;
  }

  /** Each line of a text as one data line. */
  function AsData(text: seq<string>): (r: seq<string>)
    ensures |r| == |text| && forall i :: 0 <= i < |r| ==> r[i] == DATA_SPACE + text[i]
  {
    seq(|text|, i requires 0 <= i < |text| => DATA_SPACE + text[i])
  }

  lemma {:induction false} DataThenNone(text: seq<string>, after: seq<string>)
    requires forall i :: 0 <= i < |after| ==> !(DATA <= after[i])
    ensures DataLines(AsData(text) + after) == text
  {
    if text == [] {
      assert AsData(text) + after == after;
      NoneThen(after, []);
      assert after + [] == after;
    } else {
      DataThenNone(text[1..], after);
      LineSays("", text[0]);
      DataLinesFirst(DATA_SPACE + text[0], AsData(text[1..]) + after);
      hide DataLines, DataOf;
      assert AsData(text) + after == [DATA_SPACE + text[0]] + (AsData(text[1..]) + after);
      assert [text[0]] + text[1..] == text;
    }
  }

  lemma {:induction false} NoneThen(before: seq<string>, more: seq<string>)
    requires forall i :: 0 <= i < |before| ==> !(DATA <= before[i])
    ensures DataLines(before + more) == DataLines(more)
  {
    if before == [] {
      assert before + more == more;
    } else {
      assert forall i :: 0 <= i < |before| - 1 ==> before[1..][i] == before[i + 1];
      NoneThen(before[1..], more);
      LineSays(before[0], "");
      hide DataOf;
      DataLinesFirst(before[0], before[1..] + more);
      hide DataLines;
      assert before + more == [before[0]] + (before[1..] + more);
    }
  }

  /** A text of any number of lines, sent as data lines between lines of other fields, is read
      as the payload it is, trimmed; a blank one is no event. */
  lemma TextComesBack<E>(before: seq<string>, text: seq<string>, after: seq<string>, parse: string -> Json<E>)
    requires text != [] && (forall i :: 0 <= i < |text| ==> '\n' !in text[i])
    requires forall i :: 0 <= i < |before| ==> '\n' !in before[i] && !(DATA <= before[i])
    requires forall i :: 0 <= i < |after| ==> '\n' !in after[i] && !(DATA <= after[i])
    ensures var payload := Trim(Join(text));
      FrameEvents(Join(before + (AsData(text) + after)), parse) == if payload == "" then [] else PayloadEvents(payload, parse)
  {
    var lines := before + (AsData(text) + after);
    forall i | 0 <= i < |lines| ensures '\n' !in lines[i] {
      if |before| <= i < |before| + |text| {
        assert lines[i] == DATA_SPACE + text[i - |before|];
      }
    }
    LinesOfJoin(lines);
    NoneThen(before, AsData(text) + after);
    DataThenNone(text, after);
    hide Join, Lines, DataLines, Trim, PayloadEvents, DataOf;
  }

  /** Trimming takes the white space at both ends and nothing else. */
  lemma TrimIs(s: string) returns (front: nat, back: nat)
    ensures front <= back <= |s| && Trim(s) == s[front..back]
    ensures forall i :: 0 <= i < front || back <= i < |s| ==> White(s[i])
    ensures front < back ==> !White(s[front]) && !White(s[back - 1])
  {
    hide White;
    front := TrimLeftIs(s);
    var n := TrimRightIs(s[front..]);
    back := front + n;
    assert forall i :: front <= i < |s| ==> s[front..][i - front] == s[i];
  }

  lemma {:induction false} TrimLeftIs(s: string) returns (n: nat)
    ensures n <= |s| && TrimLeft(s) == s[n..] && (n < |s| ==> !White(s[n]))
    ensures forall i :: 0 <= i < n ==> White(s[i])
  {
    hide White;
    n := 0;
    if s != [] && White(s[0]) {
      var k := TrimLeftIs(s[1..]);
      n := k + 1;
      assert forall i :: 1 <= i < |s| ==> s[1..][i - 1] == s[i];
    }
  }

  lemma {:induction false} TrimRightIs(s: string) returns (n: nat)
    ensures n <= |s| && TrimRight(s) == s[..n] && (n > 0 ==> !White(s[n - 1]))
    ensures forall i :: n <= i < |s| ==> White(s[i])
  {
    hide White;
    n := |s|;
    if s != [] && White(s[|s| - 1]) {
      n := TrimRightIs(s[..|s| - 1]);
    }
  }

  // ---------- parseSseChunk ----------

  /** The lines of a frame that carry data. */
  method CollectData(frame: string) returns (dataLines: seq<string>)
    ensures dataLines == DataLines(Lines(frame))
  {
    dataLines := [];
    var lines := Lines(frame);
    for i := 0 to |lines|
      invariant dataLines + DataLines(lines[i..]) == DataLines(lines)
    {
      var line := lines[i];
      DataLinesFirst(line, lines[i + 1..]);
      assert lines[i..] == [line] + lines[i + 1..];
      hide DataLines;
      if StartsWith(line, DATA_SPACE) {
        dataLines := dataLines + [line[6..]];
      } else if StartsWith(line, DATA) {
        dataLines := dataLines + [line[5..]];
      }
    }
  }

  method ParsePayload<E>(payload: string, parse: string -> Json<E>) returns (events: seq<UiEvent<E>>)
    ensures events == PayloadEvents(payload, parse)
  {
    match parse(payload) {
      case IsEvent(e) => events := [FromJson(e)];
      case Other => events := [];
      case Malformed =>
        var failed := StartsWith(payload, ERROR_PREFIX);
        events := [Message(payload, payload == "done" || failed, if failed then Some(Trim(Slice(payload, 7))) else None)];
    }
  }

  /** The loop body for one frame. */
  method ParseFrame<E>(frame: string, parse: string -> Json<E>) returns (events: seq<UiEvent<E>>)
    ensures events == FrameEvents(frame, parse)
  {
    var dataLines := CollectData(frame);
    if |dataLines| == 0 {
      return [];
    }
    var payload := Trim(Join(dataLines));
    if payload == "" {
      return [];
    }
    events := ParsePayload(payload, parse);
  }

  method ParseSseChunk<E>(buffer: string, parse: string -> Json<E>) returns (events: seq<UiEvent<E>>, rest: string)
    ensures events == EventsOf(Frames(buffer), parse) && rest == Rest(buffer)
  {
    hide FirstSep, FrameEvents;
    events := [];
    var cursor := 0;
    while cursor < |buffer|
      invariant cursor <= |buffer|
      invariant events + EventsOf(Frames(buffer[cursor..]), parse) == EventsOf(Frames(buffer), parse)
      invariant Rest(buffer[cursor..]) == Rest(buffer)
    {
      var sep := FirstSep(buffer, cursor);
      SepShift(buffer, cursor);
      if sep.None? {
        break;
      }
      var frame := buffer[cursor..sep.value];
      FrameAt(buffer, cursor, sep.value);
      cursor := sep.value + 2;
      var more := ParseFrame(frame, parse);
      events := events + more;
    }
    rest := buffer[cursor..];
    StopsAtRest(buffer, cursor);
  }

  /** The first frame of what is left, and what is left after it. */
  lemma FrameAt(s: string, cursor: nat, sep: nat)
    requires FirstSep(s, cursor) == Some(sep) && cursor <= |s|
    ensures Frames(s[cursor..]) == [s[cursor..sep]] + Frames(s[sep + 2..])
    ensures Rest(s[cursor..]) == Rest(s[sep + 2..])
  {
    hide FirstSep, Frames, Rest;
    SepShift(s, cursor);
    Unroll(s[cursor..], sep - cursor);
    assert s[cursor..][..sep - cursor] == s[cursor..sep];
    assert s[cursor..][sep - cursor + 2..] == s[sep + 2..];
  }

  lemma Unroll(t: string, i: nat)
    requires FirstSep(t, 0) == Some(i)
    ensures i + 2 <= |t| && Frames(t) == [t[..i]] + Frames(t[i + 2..]) && Rest(t) == Rest(t[i + 2..])
  {
  }

  lemma SepShift(s: string, from: nat)
    requires from <= |s|
    ensures var r := FirstSep(s, from);
      FirstSep(s[from..], 0) == if r.Some? then Some(r.value - from) else None
  {
    var r, t := FirstSep(s, from), FirstSep(s[from..], 0);
    assert forall i: nat :: SepAt(s[from..], i) <==> SepAt(s, from + i);
    if r.Some? {
      assert SepAt(s[from..], r.value - from);
      forall j: nat | j < r.value - from ensures !SepAt(s[from..], j) { }
      SepUnique(s[from..], r.value - from);
    }
  }

  lemma StopsAtRest(s: string, cursor: nat)
    requires cursor <= |s|
    ensures FirstSep(s[cursor..], 0).None? ==> Frames(s[cursor..]) == [] && Rest(s[cursor..]) == s[cursor..]
    ensures cursor == |s| ==> FirstSep(s[cursor..], 0).None?
  {
  }

  // ---------- feeding the parser ----------

  function Concat(chunks: seq<string>): string {
    if chunks == [] then "" else chunks[0] + Concat(chunks[1..])
  }

  /** The buffer loop without the early stop: events of all chunks, and the last tail. */
  function Fed<E>(buffer: string, chunks: seq<string>, parse: string -> Json<E>): (seq<UiEvent<E>>, string)
    decreases chunks
  {
    if chunks == [] then ([], buffer)
    else
      var now := buffer + chunks[0];
      var (events, rest) := Fed(Rest(now), chunks[1..], parse);
      (EventsOf(Frames(now), parse) + events, rest)
  }

  lemma TailOnly(s: string)
    requires FirstSep(s, 0).None?
    ensures Frames(s) == [] && Rest(s) == s
  {
  }

  lemma NoEvents<E>(parse: string -> Json<E>)
    ensures EventsOf([], parse) == []
  {
  }

  /** However the stream is cut into chunks, carrying the tail forward yields the events of
      the whole text and its tail. */
  lemma {:induction false} ChunkingIrrelevant<E>(buffer: string, chunks: seq<string>, parse: string -> Json<E>)
    requires FirstSep(buffer, 0).None?
    ensures Fed(buffer, chunks, parse)
         == (EventsOf(Frames(buffer + Concat(chunks)), parse), Rest(buffer + Concat(chunks)))
    decreases chunks
  {
    hide FirstSep, Frames, Rest, EventsOf;
    if chunks == [] {
      assert buffer + "" == buffer;
      TailOnly(buffer);
      NoEvents(parse);
    } else {
      var now, later := buffer + chunks[0], Concat(chunks[1..]);
      RestSettled(now);
      ChunkingIrrelevant(Rest(now), chunks[1..], parse);
      FramesAppend(now, later);
      EventsAppend(Frames(now), Frames(Rest(now) + later), parse);
      assert buffer + Concat(chunks) == now + later;
    }
  }

  // ---------- the server's frames ----------

  /** One frame: "data: ", the JSON text with the encoder's newline, and a blank line. */
  function Framed(json: string): string {
    DATA_SPACE + json + "\n" + "\n"
  }

  function Stream<E>(evts: seq<E>, encode: E -> string): string {
    if evts == [] then "" else Framed(encode(evts[0])) + Stream(evts[1..], encode)
  }

  /** The streamer's writes for a batch. */
  method WriteBatch<E>(batch: seq<E>, encode: E -> string) returns (out: string)
    ensures out == Stream(batch, encode)
  {
    out := "";
    for i := 0 to |batch|
      invariant out + Stream(batch[i..], encode) == Stream(batch, encode)
    {
      assert batch[i..][1..] == batch[i + 1..];
      out := out + DATA_SPACE;
      out := out + encode(batch[i]) + "\n";
      out := out + "\n";
    }
    assert out + "" == out;
  }

  /** JSON text as the encoder writes it: no newline, no white space at its ends, and parsing
      gives the event back. */
  ghost predicate GoodJson<E>(json: string, e: E, parse: string -> Json<E>) {
    Plain(json) && parse(json) == IsEvent(e)
  }

  /** One line of text, not blank at either end. */
  ghost predicate Plain(text: string) {
    text != "" && '\n' !in text && !White(text[0]) && !White(text[|text| - 1])
  }

  ghost predicate GoodEncoder<E(!new)>(encode: E -> string, parse: string -> Json<E>) {
    forall e :: GoodJson(encode(e), e, parse)
  }

  lemma OneLine(s: string)
    requires '\n' !in s
    ensures LineEnd(s) == |s| && Lines(s) == [s]
  {
  }

  lemma FirstSepOfFrame(json: string, tail: string)
    requires '\n' !in json
    ensures FirstSep(Framed(json) + tail, 0) == Some(6 + |json|)
    ensures (Framed(json) + tail)[..6 + |json|] == DATA_SPACE + json
    ensures (Framed(json) + tail)[6 + |json| + 2..] == tail
  {
    var s, n := Framed(json) + tail, 6 + |json|;
    assert s == (DATA_SPACE + json) + ("\n" + "\n" + tail);
    forall j: nat | j < n ensures !SepAt(s, j) {
      if j >= 6 {
        assert s[j] == json[j - 6];
      } else {
        assert s[j] == DATA_SPACE[j];
      }
    }
    assert s[n] == '\n' && s[n + 1] == '\n';
    SepUnique(s, n);
  }

  lemma FrameDecodes<E>(text: string, parse: string -> Json<E>)
    requires Plain(text)
    ensures FrameEvents(DATA_SPACE + text, parse) == PayloadEvents(text, parse)
  {
    var frame := DATA_SPACE + text;
    assert '\n' !in frame;
    OneLine(frame);
    assert frame[6..] == text;
    assert DataLines([]) == [];
    assert DataLines([frame]) == [text];
    assert Join([text]) == text;
    assert Trim(text) == text;
  }

  /** The events of a log as the store receives them. */
  function FromLog<E>(evts: seq<E>): (r: seq<UiEvent<E>>)
    ensures |r| == |evts| && forall i :: 0 <= i < |r| ==> r[i] == FromJson(evts[i])
  {
    if evts == [] then [] else [FromJson(evts[0])] + FromLog(evts[1..])
  }

  /** A frame in front adds what its payload comes to and leaves the rest to the tail. */
  lemma FrameInFront<E>(text: string, tail: string, parse: string -> Json<E>)
    requires Plain(text)
    ensures EventsOf(Frames(Framed(text) + tail), parse) == PayloadEvents(text, parse) + EventsOf(Frames(tail), parse)
    ensures Rest(Framed(text) + tail) == Rest(tail)
  {
    FirstSepOfFrame(text, tail);
    FrameDecodes(text, parse);
    hide FirstSep, FrameEvents, PayloadEvents, Plain, Framed, Frames, Rest;
    Unroll(Framed(text) + tail, 6 + |text|);
    EventsAppend([DATA_SPACE + text], Frames(tail), parse);
    assert EventsOf([DATA_SPACE + text], parse) == FrameEvents(DATA_SPACE + text, parse) + EventsOf([], parse);
  }

  /** The legacy relay's frames are no JSON: "done" ends the stream, "error: m" ends it with m,
      any other text is a message and the stream goes on. */
  lemma LegacyFrame<E>(text: string, tail: string, parse: string -> Json<E>) returns (evt: UiEvent<E>)
    requires Plain(text) && parse(text) == Malformed
    ensures EventsOf(Frames(Framed(text) + tail), parse) == [evt] + EventsOf(Frames(tail), parse)
    ensures evt.Message? && evt.text == text
    ensures text == "done" ==> evt.done && evt.error == None
    ensures forall msg :: Plain(msg) && text == "error: " + msg ==> evt.done && evt.error == Some(msg)
    ensures text != "done" && !(ERROR_PREFIX <= text) ==> !evt.done && evt.error == None
  {
    FrameInFront(text, tail, parse);
    evt := PayloadEvents(text, parse)[0];
    forall msg | Plain(msg) && text == "error: " + msg ensures evt.done && evt.error == Some(msg) {
      assert text[..6] == ERROR_PREFIX && text[7..] == msg;
    }
  }

  /** Parsing the server's stream gives the events back, in order, with nothing left over. */
  lemma {:induction false} StreamRoundTrip<E(!new)>(evts: seq<E>, encode: E -> string, parse: string -> Json<E>)
    requires GoodEncoder(encode, parse)
    ensures EventsOf(Frames(Stream(evts, encode)), parse) == FromLog(evts)
    ensures Rest(Stream(evts, encode)) == ""
  {
    if evts != [] {
      var json, tail := encode(evts[0]), Stream(evts[1..], encode);
      assert GoodJson(json, evts[0], parse);
      assert PayloadEvents(json, parse) == [FromJson(evts[0])];
      StreamRoundTrip(evts[1..], encode, parse);
      hide Frames, Rest, EventsOf, GoodEncoder, GoodJson, Framed;
      FrameInFront(json, tail, parse);
    }
  }

  /** End to end: the server's frames, cut anywhere, arrive as the encoded events in order. */
  lemma DeliveredInOrder<E(!new)>(evts: seq<E>, chunks: seq<string>, encode: E -> string, parse: string -> Json<E>)
    requires GoodEncoder(encode, parse) && Concat(chunks) == Stream(evts, encode)
    ensures Fed("", chunks, parse) == (FromLog(evts), "")
  {
    assert "" + Concat(chunks) == Stream(evts, encode);
    ChunkingIrrelevant("", chunks, parse);
    StreamRoundTrip(evts, encode, parse);
  }

  // ---------- the reading loop ----------

  /** The events up to and including the first that says done. */
  function UpToDone<E>(events: seq<UiEvent<E>>, isDone: UiEvent<E> -> bool): seq<UiEvent<E>> {
    if events == [] then []
    else if isDone(events[0]) then [events[0]]
    else [events[0]] + UpToDone(events[1..], isDone)
  }

  ghost predicate AnyDone<E>(events: seq<UiEvent<E>>, isDone: UiEvent<E> -> bool) {
    exists e :: e in events && isDone(e)
  }

  lemma {:induction false} UpToDoneAppend<E>(a: seq<UiEvent<E>>, b: seq<UiEvent<E>>, isDone: UiEvent<E> -> bool)
    ensures UpToDone(a + b, isDone) == if AnyDone(a, isDone) then UpToDone(a, isDone) else a + UpToDone(b, isDone)
    ensures !AnyDone(a, isDone) ==> UpToDone(a, isDone) == a
  {
    if a == [] {
      assert a + b == b;
    } else {
      hide AnyDone, UpToDone;
      var t := a[1..];
      UpToDoneAppend(t, b, isDone);
      AnyDoneFirst(a, isDone);
      UpToDoneFirst(a, isDone);
      UpToDoneFirst(a + b, isDone);
      HeadAppend(a, b, UpToDone(b, isDone));
    }
  }

  lemma HeadAppend<T>(a: seq<T>, b: seq<T>, c: seq<T>)
    requires a != []
    ensures (a + b)[0] == a[0] && (a + b)[1..] == a[1..] + b && [a[0]] + a[1..] == a
    ensures [a[0]] + (a[1..] + c) == a + c
  {
  }

  lemma UpToDoneFirst<E>(a: seq<UiEvent<E>>, isDone: UiEvent<E> -> bool)
    requires a != []
    ensures UpToDone(a, isDone) == if isDone(a[0]) then [a[0]] else [a[0]] + UpToDone(a[1..], isDone)
  {
  }

  lemma AnyDoneFirst<E>(a: seq<UiEvent<E>>, isDone: UiEvent<E> -> bool)
    requires a != []
    ensures AnyDone(a, isDone) <==> isDone(a[0]) || AnyDone(a[1..], isDone)
  {
    assert a == [a[0]] + a[1..];
  }

  /** Applies events until one says done. */
  method ApplyUntilDone<E>(events: seq<UiEvent<E>>, isDone: UiEvent<E> -> bool)
    returns (applied: seq<UiEvent<E>>, closed: bool)
    ensures applied == UpToDone(events, isDone) && (closed <==> AnyDone(events, isDone))
  {
    applied, closed := [], false;
    for i := 0 to |events|
      invariant applied == events[..i] && !closed && !AnyDone(events[..i], isDone)
      invariant applied + UpToDone(events[i..], isDone) == UpToDone(events, isDone)
    {
      assert events[..i + 1] == events[..i] + [events[i]];
      assert events[i..][1..] == events[i + 1..];
      applied := applied + [events[i]];
      if isDone(events[i]) {
        assert UpToDone(events[i..], isDone) == [events[i]];
        return applied, true;
      }
    }
    assert events[..|events|] == events;
  }

  /** The fetch loop: whatever the chunking, the store gets the stream's events up to the
      first done one. */
  method ReadLoop<E>(chunks: seq<string>, parse: string -> Json<E>, isDone: UiEvent<E> -> bool)
    returns (applied: seq<UiEvent<E>>)
    ensures applied == UpToDone(EventsOf(Frames(Concat(chunks)), parse), isDone)
  {
    hide FirstSep, Frames, Rest, EventsOf, AnyDone, UpToDone, Fed, Concat;
    applied := [];
    var buffer, closed, i := "", false, 0;
    ghost var all := Fed("", chunks, parse).0;
    ChunkingIrrelevant("", chunks, parse);
    assert "" + Concat(chunks) == Concat(chunks);
    assert chunks[0..] == chunks;
    while !closed && i < |chunks|
      invariant 0 <= i <= |chunks|
      invariant if closed then applied == UpToDone(all, isDone)
                else applied + UpToDone(Fed(buffer, chunks[i..], parse).0, isDone) == UpToDone(all, isDone)
      decreases |chunks| - i
    {
      FedStep(buffer, chunks, i, parse);
      var events, rest, some;
      events, rest := ParseSseChunk(buffer + chunks[i], parse);
      UpToDoneAppend(events, Fed(rest, chunks[i + 1..], parse).0, isDone);
      some, closed := ApplyUntilDone(events, isDone);
      applied := applied + some;
      buffer := rest;
      i := i + 1;
    }
    FedNothing(buffer, chunks, i, parse, isDone);
  }

  lemma FedStep<E>(buffer: string, chunks: seq<string>, i: nat, parse: string -> Json<E>)
    requires i < |chunks|
    ensures Fed(buffer, chunks[i..], parse).0
         == EventsOf(Frames(buffer + chunks[i]), parse) + Fed(Rest(buffer + chunks[i]), chunks[i + 1..], parse).0
  {
    hide FirstSep, Frames, Rest, EventsOf;
    assert chunks[i..][1..] == chunks[i + 1..];
  }

  lemma FedNothing<E>(buffer: string, chunks: seq<string>, i: nat, parse: string -> Json<E>, isDone: UiEvent<E> -> bool)
    ensures i == |chunks| ==> UpToDone(Fed(buffer, chunks[i..], parse).0, isDone) == []
  {
  }
}
