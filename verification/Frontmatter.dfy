/** Note frontmatter (internal/notes/frontmatter.go) on bytes, with YAML as a pair of
    functions. */
module Frontmatter {
  import opened Collections

  newtype byte = x: int | 0 <= x < 256

  type Bytes = seq<byte>

  const DASH: byte := 45
  const NEWLINE: byte := 10
  const RETURN: byte := 13
  const SPACE: byte := 32
  const TAB: byte := 9

  const DELIM: Bytes := [DASH, DASH, DASH]

  datatype Yaml<M> = Malformed | Null | Doc(m: M)

  /** encode writes a map as YAML, decode reads it, blank says that trimming space leaves
      nothing, empty is the map without keys. */
  datatype Codec<!M> = Codec(encode: M -> Bytes, decode: Bytes -> Yaml<M>, blank: Bytes -> bool, empty: M)

  datatype Parsed<M> = Bad | Parsed(data: M, body: Bytes)

  // ---------- delimiter lines ----------

  /** Number of leading spaces and tabs. */
  function Blanks(b: Bytes): (n: nat)
    ensures n <= |b| && (forall i :: 0 <= i < n ==> b[i] == SPACE || b[i] == TAB)
    ensures n < |b| ==> b[n] != SPACE && b[n] != TAB
  {
    if b == [] || (b[0] != SPACE && b[0] != TAB) then 0 else 1 + Blanks(b[1..])
  }

  /** The rest after a leading `---`, optional blanks, optional return, and a newline. */
  function AfterDelim(b: Bytes): Option<Bytes> {
    if !(DELIM <= b) then None
    else
      var rest := b[3..];
      var i := Blanks(rest);
      var k := if i < |rest| && rest[i] == RETURN then i + 1 else i;
      if k >= |rest| || rest[k] != NEWLINE then None else Some(rest[k + 1..])
  }

  method TrimFMDelim(b: Bytes) returns (rest: Bytes, ok: bool)
    ensures ok <==> AfterDelim(b).Some?
    ensures rest == if ok then AfterDelim(b).value else b
  {
    if !(DELIM <= b) {
      return b, false;
    }
    rest := b[3..];
    var i := 0;
    while i < |rest| && (rest[i] == SPACE || rest[i] == TAB)
      invariant 0 <= i <= |rest| && forall k :: 0 <= k < i ==> rest[k] == SPACE || rest[k] == TAB
    {
      i := i + 1;
    }
    BlanksAre(rest, i);
    hide Blanks;
    if i < |rest| && rest[i] == RETURN {
      i := i + 1;
    }
    if i >= |rest| || rest[i] != NEWLINE {
      return b, false;
    }
    return rest[i + 1..], true;
  }

  /** Length of the line at the start of s, its newline not counted. */
  function LineLen(s: Bytes): (n: nat)
    ensures n <= |s| && (forall i :: 0 <= i < n ==> s[i] != NEWLINE)
    ensures n < |s| ==> s[n] == NEWLINE
  {
    if s == [] || s[0] == NEWLINE then 0 else 1 + LineLen(s[1..])
  }

  lemma LineLenUnique(s: Bytes, n: nat)
    requires n <= |s| && (forall i :: 0 <= i < n ==> s[i] != NEWLINE) && (n < |s| ==> s[n] == NEWLINE)
    ensures LineLen(s) == n
  {
    var m := LineLen(s);
    assert !(m < n) && !(n < m);
  }

  function Line(s: Bytes): Bytes {
    s[..LineLen(s)]
  }

  predicate Trailing(c: byte) { c == SPACE || c == TAB || c == RETURN }

  /** bytes.TrimRight(line, " \t\r"). */
  function TrimRight(line: Bytes): Bytes {
    if line != [] && Trailing(line[|line| - 1]) then TrimRight(line[..|line| - 1]) else line
  }

  /** A delimiter line begins at i. */
  predicate ClosesAt(s: Bytes, i: nat) {
    i < |s| && (i == 0 || s[i - 1] == NEWLINE) && TrimRight(Line(s[i..])) == DELIM
  }

  /** The first delimiter line at or after the line start `from`. */
  function Closing(s: Bytes, from: nat): Option<nat>
    decreases |s| - from
  {
    if from >= |s| then None
    else if TrimRight(Line(s[from..])) == DELIM then Some(from)
    else if from + LineLen(s[from..]) >= |s| then None
    else Closing(s, from + LineLen(s[from..]) + 1)
  }

  method FindClosingDelim(s: Bytes) returns (r: int)
    ensures r == match Closing(s, 0) case None => -1 case Some(i) => i
  {
    var start := 0;
    while start < |s|
      invariant 0 <= start && Closing(s, start) == Closing(s, 0)
      decreases |s| - start
    {
      var n := LineLen(s[start..]);
      var line := s[start..][..n];
      if TrimRight(line) == DELIM {
        return start;
      }
      if start + n >= |s| {
        return -1;
      }
      start := start + n + 1;
    }
    r := -1;
  }

  predicate LineStart(s: Bytes, i: nat) {
    i == 0 || (i <= |s| && s[i - 1] == NEWLINE)
  }

  /** findClosingDelim returns the smallest line start whose line right-trims to `---`. */
  lemma {:induction false} ClosingIsFirst(s: Bytes, from: nat)
    requires LineStart(s, from)
    ensures match Closing(s, from)
      case None => forall i: nat :: from <= i ==> !ClosesAt(s, i)
      case Some(i) => from <= i && ClosesAt(s, i) && forall j: nat :: from <= j < i ==> !ClosesAt(s, j)
    decreases |s| - from
  {
    hide TrimRight, LineLen;
    if from < |s| {
      var n := LineLen(s[from..]);
      if TrimRight(Line(s[from..])) != DELIM && from + n < |s| {
        assert s[from..][n] == s[from + n];
        ClosingIsFirst(s, from + n + 1);
      }
    }
  }

  // ---------- parse and encode ----------

  function DropNewline(b: Bytes): Bytes {
    if b != [] && b[0] == NEWLINE then b[1..] else b
  }

  /** What the body is when the closing line was found at i. */
  function BodyAfter(rest: Bytes, i: nat): Bytes
    requires i <= |rest|
  {
    var after := rest[i..];
    DropNewline(match AfterDelim(after) case Some(b) => b case None => after)
  }

  function Decoded<M>(codec: Codec<M>, yaml: Bytes, body: Bytes): Parsed<M> {
    if codec.blank(yaml) then Parsed(codec.empty, body)
    else
      match codec.decode(yaml)
      case Malformed => Bad
      case Null => Parsed(codec.empty, body)
      case Doc(m) => Parsed(m, body)
  }

  function Parse<M>(codec: Codec<M>, raw: Bytes): Parsed<M> {
    match AfterDelim(raw)
    case None => Parsed(codec.empty, raw)
    case Some(rest) =>
      match Closing(rest, 0)
      case None => Parsed(codec.empty, raw)
      case Some(i) => if i <= |rest| then Decoded(codec, rest[..i], BodyAfter(rest, i)) else Bad
  }

  lemma NothingToStrip(raw: Bytes)
    ensures raw == [] ==> AfterDelim(raw).None?
    ensures AfterDelim(raw).Some? ==> |AfterDelim(raw).value| < |raw|
  {
  }

  lemma ClosingInside(rest: Bytes)
    ensures Closing(rest, 0).Some? ==> Closing(rest, 0).value < |rest|
  {
    ClosingIsFirst(rest, 0);
  }

  method ParseFrontmatter<M>(codec: Codec<M>, raw: Bytes) returns (r: Parsed<M>)
    ensures r == Parse(codec, raw)
  {
    hide AfterDelim, Closing, ClosesAt;
    if |raw| == 0 {
      NothingToStrip(raw);
      return Parsed(codec.empty, []);
    }
    var rest, ok := TrimFMDelim(raw);
    if !ok {
      return Parsed(codec.empty, raw);
    }
    var closeIdx := FindClosingDelim(rest);
    if closeIdx < 0 {
      return Parsed(codec.empty, raw);
    }
    ClosingInside(rest);
    var yamlBytes := rest[..closeIdx];
    var afterClose := rest[closeIdx..];
    var found;
    afterClose, found := TrimFMDelim(afterClose);
    if |afterClose| > 0 && afterClose[0] == NEWLINE {
      afterClose := afterClose[1..];
    }
    if codec.blank(yamlBytes) {
      return Parsed(codec.empty, afterClose);
    }
    match codec.decode(yamlBytes) {
      case Malformed => r := Bad;
      case Null => r := Parsed(codec.empty, afterClose);
      case Doc(m) => r := Parsed(m, afterClose);
    }
  }

  function Encode<M(==)>(codec: Codec<M>, data: M, body: Bytes): Bytes {
    if data == codec.empty then body
    else DELIM + [NEWLINE] + codec.encode(data) + DELIM + [NEWLINE] + body
  }

  method EncodeFrontmatter<M(==)>(codec: Codec<M>, data: M, body: Bytes) returns (buf: Bytes)
    ensures buf == Encode(codec, data, body)
  {
    if data == codec.empty {
      return body;
    }
    buf := DELIM;
    buf := buf + [NEWLINE];
    buf := buf + codec.encode(data);
    buf := buf + DELIM;
    buf := buf + [NEWLINE];
    buf := buf + body;
  }

  // ---------- the round trip ----------

  lemma PlainDelim(tail: Bytes)
    ensures AfterDelim(DELIM + [NEWLINE] + tail) == Some(tail)
  {
    var b := DELIM + [NEWLINE] + tail;
    assert DELIM <= b;
    assert b[3..] == [NEWLINE] + tail;
    assert Blanks(b[3..]) == 0;
    assert b[3..][1..] == tail;
  }

  /** Appending text after a newline does not change the lines before it. */
  lemma LineKept(y: Bytes, t: Bytes, i: nat)
    requires y != [] && y[|y| - 1] == NEWLINE && i < |y|
    ensures Line((y + t)[i..]) == Line(y[i..])
    ensures ClosesAt(y + t, i) <==> ClosesAt(y, i)
  {
    var n := LineLen(y[i..]);
    assert y[i..][|y| - 1 - i] == NEWLINE;
    assert n < |y[i..]|;
    assert (y + t)[i..] == y[i..] + t;
    LineLenUnique((y + t)[i..], n);
    assert i > 0 ==> (y + t)[i - 1] == y[i - 1];
  }

  lemma ClosesAtDelim(y: Bytes, body: Bytes)
    requires y == [] || y[|y| - 1] == NEWLINE
    ensures ClosesAt(y + (DELIM + [NEWLINE] + body), |y|)
  {
    var t := DELIM + [NEWLINE] + body;
    var s := y + t;
    assert s[|y|..] == t;
    LineLenUnique(t, 3);
    assert Line(t) == DELIM;
    assert y != [] ==> s[|y| - 1] == y[|y| - 1];
  }

  /** The closing line is found right after the YAML exactly when no line of the YAML looks
      like one. */
  lemma ClosingAfterYaml(y: Bytes, body: Bytes)
    requires y != [] && y[|y| - 1] == NEWLINE
    ensures Closing(y + (DELIM + [NEWLINE] + body), 0) == Some(|y|) <==> forall i: nat :: i < |y| ==> !ClosesAt(y, i)
  {
    var s := y + (DELIM + [NEWLINE] + body);
    ClosingIsFirst(s, 0);
    ClosesAtDelim(y, body);
    forall i: nat | i < |y| ensures ClosesAt(s, i) <==> ClosesAt(y, i) {
      LineKept(y, DELIM + [NEWLINE] + body, i);
    }
  }

  /** YAML text the encoder can be trusted with: it decodes to the map, ends in a newline, is
      not blank, and has no line that right-trims to `---`. */
  ghost predicate Encodable<M>(codec: Codec<M>, data: M) {
    var y := codec.encode(data);
    && codec.decode(y) == Doc(data) && !codec.blank(y)
    && y != [] && y[|y| - 1] == NEWLINE
    && forall i: nat :: i < |y| ==> !ClosesAt(y, i)
  }

  /** Parsing what was encoded returns the map and the body, less one leading newline. */
  lemma RoundTrip<M>(codec: Codec<M>, data: M, body: Bytes)
    requires data != codec.empty && Encodable(codec, data)
    ensures Parse(codec, Encode(codec, data, body)) == Parsed(data, DropNewline(body))
  {
    var y := codec.encode(data);
    var rest := y + (DELIM + [NEWLINE] + body);
    assert Encode(codec, data, body) == DELIM + [NEWLINE] + rest;
    PlainDelim(rest);
    ClosingAfterYaml(y, body);
    assert rest[..|y|] == y && rest[|y|..] == DELIM + [NEWLINE] + body;
    PlainDelim(body);
  }

  /** The body comes back unchanged exactly when it does not start with a newline. */
  lemma BodyExactIff<M>(codec: Codec<M>, data: M, body: Bytes)
    requires data != codec.empty && Encodable(codec, data)
    ensures Parse(codec, Encode(codec, data, body)) == Parsed(data, body) <==> body == [] || body[0] != NEWLINE
  {
    RoundTrip(codec, data, body);
    if body != [] && body[0] == NEWLINE {
      assert |DropNewline(body)| == |body| - 1;
    }
  }

  /** For the empty map, what was encoded parses back exactly when the body itself does not
      parse as frontmatter. */
  lemma EmptyMapRoundTripIff<M>(codec: Codec<M>, body: Bytes)
    ensures Encode(codec, codec.empty, body) == body
    ensures Parse(codec, Encode(codec, codec.empty, body)) == Parsed(codec.empty, body)
       <==> AfterDelim(body).None? || Closing(AfterDelim(body).value, 0).None?
  {
    hide AfterDelim, Closing;
    NothingToStrip(body);
    if AfterDelim(body).Some? && Closing(AfterDelim(body).value, 0).Some? {
      var rest := AfterDelim(body).value;
      ClosingInside(rest);
      NothingToStrip(rest[Closing(rest, 0).value..]);
      assert |BodyAfter(rest, Closing(rest, 0).value)| <= |rest| < |body|;
    }
  }

  // ---------- what parsing comes to, on any input ----------

  /** b starts with a delimiter line that ends at k: `---`, blanks, an optional return, a newline. */
  predicate DelimLine(b: Bytes, k: nat) {
    && 3 <= k < |b| && b[..3] == DELIM && b[k] == NEWLINE
    && forall i :: 3 <= i < k ==> b[i] == SPACE || b[i] == TAB || (i == k - 1 && b[i] == RETURN)
  }

  /** A delimiter line is consumed exactly where there is one, up to and including its newline. */
  lemma AfterDelimIff(b: Bytes, k: nat)
    ensures DelimLine(b, k) ==> AfterDelim(b) == Some(b[k + 1..])
    ensures AfterDelim(b).Some? ==> exists n: nat :: DelimLine(b, n)
  {
    if DelimLine(b, k) {
      DelimLineConsumed(b, k);
    }
    if AfterDelim(b).Some? {
      var rest := b[3..];
      var i := Blanks(rest);
      var n := if i < |rest| && rest[i] == RETURN then i + 1 else i;
      forall j | 3 <= j < n + 3 ensures b[j] == rest[j - 3] { }
      assert DelimLine(b, n + 3);
    }
  }

  lemma DelimLineConsumed(b: Bytes, k: nat)
    requires DelimLine(b, k)
    ensures AfterDelim(b) == Some(b[k + 1..])
  {
    var rest, n := b[3..], k - 3;
    assert DELIM <= b;
    forall j | 0 <= j <= n ensures rest[j] == b[j + 3] { }
    BlanksAre(rest, if n > 0 && rest[n - 1] == RETURN then n - 1 else n);
    assert rest[n + 1..] == b[k + 1..];
  }

  lemma {:induction false} BlanksAre(b: Bytes, n: nat)
    requires n <= |b| && (forall i :: 0 <= i < n ==> b[i] == SPACE || b[i] == TAB)
    requires n < |b| ==> b[n] != SPACE && b[n] != TAB
    ensures Blanks(b) == n
  {
    if n > 0 {
      BlanksAre(b[1..], n - 1);
    }
  }

  /** The first delimiter line of s begins at i. */
  ghost predicate FirstCloses(s: Bytes, i: nat) {
    ClosesAt(s, i) && forall j: nat :: j < i ==> !ClosesAt(s, j)
  }

  ghost predicate NeverCloses(s: Bytes) {
    forall j: nat :: !ClosesAt(s, j)
  }

  /** With an opening line up to k and a first closing line at i of the rest, the text between
      is read as YAML: malformed text fails, a blank or null one is the empty map, and any other
      the map it decodes to. */
  lemma ParseBetween<M>(codec: Codec<M>, raw: Bytes, k: nat, i: nat)
    requires DelimLine(raw, k) && FirstCloses(raw[k + 1..], i)
    ensures var rest := raw[k + 1..];
      var yaml, body := rest[..i], BodyAfter(rest, i);
      && (Parse(codec, raw) == Bad <==> !codec.blank(yaml) && codec.decode(yaml) == Malformed)
      && (codec.blank(yaml) || codec.decode(yaml) == Null ==> Parse(codec, raw) == Parsed(codec.empty, body))
      && (forall m :: !codec.blank(yaml) && codec.decode(yaml) == Doc(m) ==> Parse(codec, raw) == Parsed(m, body))
  {
    hide AfterDelim, ClosesAt, Closing, BodyAfter;
    AfterDelimIff(raw, k);
    FirstIs(raw[k + 1..], i);
  }

  lemma FirstIs(s: Bytes, i: nat)
    requires FirstCloses(s, i)
    ensures Closing(s, 0) == Some(i) && i < |s|
  {
    assert i < |s|;
    hide ClosesAt, Closing;
    ClosingIsFirst(s, 0);
  }

  /** Without an opening line, or without a closing one after it, the input is all body. */
  lemma ParseWithout<M>(codec: Codec<M>, raw: Bytes)
    requires forall k: nat :: DelimLine(raw, k) ==> NeverCloses(raw[k + 1..])
    ensures Parse(codec, raw) == Parsed(codec.empty, raw)
  {
    AfterDelimIff(raw, 0);
    if AfterDelim(raw).Some? {
      var k: nat :| DelimLine(raw, k);
      AfterDelimIff(raw, k);
      ClosingIsFirst(raw[k + 1..], 0);
    }
  }

  // ---------- closing lines left in the body ----------

  /** Blanks and returns from the end of `---` to the end of the line. */
  function Tail(line: Bytes): Bytes
    requires |line| >= 3
  {
    line[3..]
  }

  lemma {:induction false} TrimRightSplits(line: Bytes)
    ensures TrimRight(line) <= line
    ensures forall i :: |TrimRight(line)| <= i < |line| ==> Trailing(line[i])
  {
    if line != [] && Trailing(line[|line| - 1]) {
      TrimRightSplits(line[..|line| - 1]);
    }
  }

  /** What may close the frontmatter: a line of dashes followed by blanks and returns only. */
  lemma ClosesAtIff(s: Bytes, i: nat)
    ensures ClosesAt(s, i) <==>
      && i < |s| && (i == 0 || s[i - 1] == NEWLINE) && DELIM <= Line(s[i..])
      && forall k :: 3 <= k < |Line(s[i..])| ==> Trailing(Line(s[i..])[k])
  {
    if i < |s| {
      hide Line;
      TrimmedIff(Line(s[i..]));
    }
  }

  lemma TrimmedIff(line: Bytes)
    ensures TrimRight(line) == DELIM <==> DELIM <= line && forall k :: 3 <= k < |line| ==> Trailing(line[k])
  {
    hide TrimRight;
    TrimRightSplits(line);
    TrimRightEnds(line);
    if DELIM <= line && forall k :: 3 <= k < |line| ==> Trailing(line[k]) {
      var n := |TrimRight(line)|;
      assert n > 0 ==> TrimRight(line)[n - 1] == line[n - 1];
      assert n <= 3;
      assert line[2] == DELIM[2];
      assert n == 3;
    }
  }

  lemma {:induction false} TrimRightEnds(line: Bytes)
    ensures TrimRight(line) != [] ==> !Trailing(TrimRight(line)[|TrimRight(line)| - 1])
  {
    if line != [] && Trailing(line[|line| - 1]) {
      TrimRightEnds(line[..|line| - 1]);
    }
  }

  /** A closing line is consumed exactly when it ends in a newline and has no return except
      right before it; otherwise (a final `---` without newline, say) it stays in the body. */
  lemma ClosingConsumedIff(rest: Bytes, i: nat)
    requires ClosesAt(rest, i)
    ensures var line := Line(rest[i..]);
      && |line| >= 3
      && (AfterDelim(rest[i..]).Some? <==>
            i + |line| < |rest| && forall k :: 0 <= k < |Tail(line)| - 1 ==> Tail(line)[k] != RETURN)
    ensures AfterDelim(rest[i..]).None? ==> BodyAfter(rest, i) == rest[i..]
    ensures AfterDelim(rest[i..]).Some? ==> BodyAfter(rest, i) == DropNewline(rest[i + |Line(rest[i..])| + 1..])
  {
    var s := rest[i..];
    var n := |Line(s)| - 3;
    ClosingShape(rest, i);
    hide ClosesAt, Line, AfterDelim, DropNewline, Trailing;
    TrailingTail(s[3..], n);
    RestOfRest(rest, i, n);
  }

  lemma RestOfRest(rest: Bytes, i: nat, n: int)
    requires i + 3 <= |rest|
    ensures 0 <= n < |rest| - i - 3 ==> rest[i..][3..][n + 1..] == rest[i + (n + 3) + 1..]
  {
  }

  lemma ClosingShape(rest: Bytes, i: nat)
    requires ClosesAt(rest, i)
    ensures var s, n := rest[i..], |Line(rest[i..])| - 3;
      && 0 <= n && s == DELIM + s[3..] && TrailsTo(s[3..], n)
      && forall k :: 0 <= k < n ==> Tail(Line(s))[k] == s[3..][k]
  {
    var s := rest[i..];
    var line := Line(s);
    TrimRightSplits(line);
    assert line[..3] == DELIM;
    assert s[..3] == DELIM;
    var t := s[3..];
    forall k | 0 <= k < |line| - 3 ensures t[k] == Tail(line)[k] && Trailing(t[k]) && t[k] != NEWLINE { }
  }

  /** The first n bytes are blanks or returns, and a newline or the end follows. */
  predicate TrailsTo(t: Bytes, n: nat) {
    && n <= |t| && (n < |t| ==> t[n] == NEWLINE)
    && forall k :: 0 <= k < n ==> Trailing(t[k]) && t[k] != NEWLINE
  }

  /** After n blanks or returns and then a newline or the end, the delimiter line is read as one
      exactly when the newline is there and no return stands before the last position. */
  lemma TrailingTail(t: Bytes, n: nat)
    requires TrailsTo(t, n)
    ensures AfterDelim(DELIM + t).Some? <==> n < |t| && forall k :: 0 <= k < n - 1 ==> t[k] != RETURN
    ensures AfterDelim(DELIM + t).Some? ==> AfterDelim(DELIM + t).value == t[n + 1..]
  {
    var i := Blanks(t);
    assert (DELIM + t)[3..] == t;
    assert i <= n;
    if i < n {
      assert t[i] == RETURN;
    }
  }
}
