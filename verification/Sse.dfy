/**
 The client's decoder of server-sent events, fed with the text of a response in
 whatever pieces the network delivers.
 */
module Sse {
  import opened Text
  import opened Wrappers

  // ------------------------------------------------------------- line endings

  /** How many characters the first line end or other character takes. */
  function Taken(s: string): nat
    requires s != ""
  {
    if s[0] == '\r' && |s| > 1 && s[1] == '\n' then 2 else 1
  }

  /** CRLF and CR become LF, one chunk at a time. */
  function Normalize(s: string): string
    decreases |s|
  {
    if s == "" then ""
    else [if s[0] == '\r' then '\n' else s[0]] + Normalize(s[Taken(s)..])
  }

  /** A cut that separates a CR from its LF. */
  predicate Separates(a: string, b: string) {
    a != "" && a[|a| - 1] == '\r' && b != "" && b[0] == '\n'
  }

  /** Normalizing in two pieces is normalizing at once, unless the cut adds a line end. */
  lemma {:induction false} NormalizePieces(a: string, b: string)
    ensures !Separates(a, b) ==> Normalize(a) + Normalize(b) == Normalize(a + b)
    ensures Separates(a, b) ==> |Normalize(a) + Normalize(b)| == |Normalize(a + b)| + 1
    decreases |a|
  {
    if a == "" {
      assert a + b == b;
    } else if |a| == 1 && Separates(a, b) {
      CrThenLf(b);
      assert a == "\r";
    } else {
      var n := Taken(a);
      NormalizePieces(a[n..], b);
      assert Taken(a + b) == n && (a + b)[n..] == a[n..] + b;
      assert Separates(a, b) <==> Separates(a[n..], b);
    }
  }

  lemma CrThenLf(b: string)
    requires b != "" && b[0] == '\n'
    ensures Normalize("\r" + b) == Normalize(b) && Normalize("\r") == "\n"
  {
    assert ("\r" + b)[2..] == b[1..] && "\r"[1..] == "";
  }

  // ------------------------------------------------------------------ event blocks

  predicate BlankAt(s: string, k: int) {
    0 <= k < |s| - 1 && s[k] == '\n' && s[k + 1] == '\n'
  }

  /** The position of the first blank line. */
  function FirstBlank(s: string): (r: Option<nat>)
    ensures r.Some? ==> BlankAt(s, r.value) && forall k :: 0 <= k < r.value ==> !BlankAt(s, k)
    ensures r.None? ==> forall k :: !BlankAt(s, k)
  {
    if |s| < 2 then None
    else if BlankAt(s, 0) then Some(0)
    else
      var rest := FirstBlank(s[1..]);
      assert forall k :: k > 0 ==> (BlankAt(s, k) <==> BlankAt(s[1..], k - 1));
      if rest.Some? then Some(rest.value + 1) else None
  }

  /** The complete blocks of a text, and what waits for more. */
  function Drain(s: string): (seq<string>, string)
    decreases |s|
  {
    var k := FirstBlank(s);
    if k.None? then ([], s)
    else
      var (blocks, rest) := Drain(s[k.value + 2..]);
      ([s[..k.value]] + blocks, rest)
  }

  /** What waits holds no blank line. */
  lemma {:induction false} ResidualHasNoBlank(s: string)
    ensures forall k :: !BlankAt(Drain(s).1, k)
    decreases |s|
  {
    var k := FirstBlank(s);
    if k.Some? { ResidualHasNoBlank(s[k.value + 2..]); }
  }

  lemma FirstBlankIs(s: string, k: nat)
    requires BlankAt(s, k) && forall j :: 0 <= j < k ==> !BlankAt(s, j)
    ensures FirstBlank(s) == Some(k)
  {
  }

  lemma DrainStep(s: string, k: nat)
    requires FirstBlank(s) == Some(k) && k + 2 <= |s|
    ensures Drain(s) == ([s[..k]] + Drain(s[k + 2..]).0, Drain(s[k + 2..]).1)
  {
  }

  /** Draining early loses nothing: the rest drains the same later. */
  lemma {:induction false} DrainMore(a: string, b: string)
    ensures Drain(a + b).0 == Drain(a).0 + Drain(Drain(a).1 + b).0
    ensures Drain(a + b).1 == Drain(Drain(a).1 + b).1
    decreases |a|
  {
    hide Drain, FirstBlank;
    if FirstBlank(a).Some? {
      var n := FirstBlank(a).value;
      forall j | 0 <= j < |a| - 1 ensures BlankAt(a + b, j) <==> BlankAt(a, j) {}
      FirstBlankIs(a + b, n);
      assert (a + b)[..n] == a[..n] && (a + b)[n + 2..] == a[n + 2..] + b;
      DrainStep(a, n);
      DrainStep(a + b, n);
      DrainMore(a[n + 2..], b);
    } else {
      NothingComplete(a);
    }
  }

  lemma NothingComplete(s: string)
    requires FirstBlank(s).None?
    ensures Drain(s) == ([], s)
  {
  }

  // -------------------------------------------------------------------- one event

  datatype Event = Event(name: string, data: string)

  datatype Fields = Fields(name: string, data: seq<string>)

  function Absorb(f: Fields, line: string): Fields {
    if line == "" || line[0] == ':' then f
    else
      var colon := Find(line, ':');
      var rest := if colon < |line| then line[colon + 1..] else "";
      var value := if rest != "" && rest[0] == ' ' then rest[1..] else rest;
      if line[..colon] == "event" then f.(name := value)
      else if line[..colon] == "data" then f.(data := f.data + [value])
      else f
  }

  function AbsorbAll(lines: seq<string>): Fields
    decreases |lines|
  {
    if lines == [] then Fields("", [])
    else Absorb(AbsorbAll(lines[..|lines| - 1]), lines[|lines| - 1])
  }

  /** The event a block stands for; a block without data is none. */
  function EventOf(block: string): Option<Event> {
    var f := AbsorbAll(Split(block, '\n'));
    if f.data == [] then None else Some(Event(f.name, Join(f.data, '\n')))
  }

  function EventsOf(blocks: seq<string>): seq<Event>
    decreases |blocks|
  {
    if blocks == [] then []
    else
      var n := |blocks| - 1;
      EventsOf(blocks[..n])
      + (if EventOf(blocks[n]).Some? then [EventOf(blocks[n]).value] else [])
  }

  method EmitEvent(raw: string) returns (event: Option<Event>)
    ensures event == EventOf(raw)
  {
    var name, data := "", [];
    var lines := Split(raw, '\n');
    for k := 0 to |lines|
      invariant Fields(name, data) == AbsorbAll(lines[..k])
    {
      assert lines[..k + 1][..k] == lines[..k];
      var line := lines[k];
      if line == "" || line[0] == ':' {
        continue;
      }
      var colon := Find(line, ':');
      var field := line[..colon];
      var rest := if colon == |line| then "" else line[colon + 1..];
      var value := if rest != "" && rest[0] == ' ' then rest[1..] else rest;
      if field == "event" {
        name := value;
      } else if field == "data" {
        data := data + [value];
      }
    }
    assert lines[..|lines|] == lines;
    event := if data == [] then None else Some(Event(name, Join(data, '\n')));
  }

  /** A leading space of a value is left out. */
  function Unspaced(value: string): string {
    if " " <= value then value[1..] else value
  }

  /** What a field does: `event` names, `data` adds a line, any other is ignored. */
  function FieldSet(f: Fields, name: string, value: string): Fields {
    if name == "event" then f.(name := Unspaced(value))
    else if name == "data" then f.(data := f.data + [Unspaced(value)])
    else f
  }

  /** Every line is a field up to its first colon, or a field without a value. */
  lemma {:induction false} LinesAreFields(f: Fields, name: string, value: string)
    requires ':' !in name
    ensures Absorb(f, name + ":" + value) == FieldSet(f, name, value)
    ensures Absorb(f, name) == FieldSet(f, name, "")
  {
    var line := name + ":" + value;
    FindFirst(name, ':', value);
    FindNone(name, ':');
    assert line == name + [':'] + value;
    assert line[..|name|] == name && line[|name| + 1..] == value && name[..|name|] == name;
    if name != "" { assert name[0] in name && line[0] == name[0]; }
    if value != "" && value[0] == ' ' { assert value[..1] == " "; }
  }

  // -------------------------------------------------------------------- the stream

  function Concat(chunks: seq<string>): string
    decreases |chunks|
  {
    if chunks == [] then ""
    else Concat(chunks[..|chunks| - 1]) + chunks[|chunks| - 1]
  }

  /** Each chunk normalized on its own. */
  function Normalized(chunks: seq<string>): string
    decreases |chunks|
  {
    if chunks == [] then ""
    else Normalized(chunks[..|chunks| - 1]) + Normalize(chunks[|chunks| - 1])
  }

  /** No chunk boundary separates a CR from its LF. */
  ghost predicate KeepsLineEnds(chunks: seq<string>) {
    forall k :: 0 <= k < |chunks| ==> !Separates(Concat(chunks[..k]), chunks[k])
  }

  lemma {:induction false} EventsConcat(a: seq<string>, b: seq<string>)
    ensures EventsOf(a + b) == EventsOf(a) + EventsOf(b)
    decreases |b|
  {
    hide EventOf;
    if b == [] {
      assert a + b == a;
    } else {
      assert (a + b)[..|a + b| - 1] == a + b[..|b| - 1];
      EventsConcat(a, b[..|b| - 1]);
    }
  }

  /** Takes the complete blocks off the buffer. */
  method TakeEvents(text: string) returns (events: seq<Event>, buffer: string)
    ensures events == EventsOf(Drain(text).0) && buffer == Drain(text).1
  {
    hide EventOf, EventsOf;
    events, buffer := [], text;
    NoEvents();
    ghost var taken: seq<string> := [];
    var boundary := FirstBlank(buffer);
    while boundary.Some?
      invariant boundary == FirstBlank(buffer)
      invariant Drain(text).0 == taken + Drain(buffer).0 && Drain(text).1 == Drain(buffer).1
      invariant events == EventsOf(taken)
      decreases |buffer|
    {
      var block := buffer[..boundary.value];
      var event := EmitEvent(block);
      OneMoreBlock(taken, block);
      if event.Some? {
        events := events + [event.value];
      }
      taken := taken + [block];
      buffer := buffer[boundary.value + 2..];
      boundary := FirstBlank(buffer);
    }
    assert taken + [] == taken;
  }

  lemma NoEvents()
    ensures EventsOf([]) == []
  {
  }

  lemma OneMoreBlock(blocks: seq<string>, block: string)
    ensures EventsOf(blocks + [block])
            == EventsOf(blocks) + (if EventOf(block).Some? then [EventOf(block).value] else [])
  {
    assert (blocks + [block])[..|blocks|] == blocks;
  }

  /** The decoding loop over the chunks as they arrive. */
  method Pump(chunks: seq<string>) returns (events: seq<Event>, buffer: string)
    ensures events == EventsOf(Drain(Normalized(chunks)).0)
    ensures buffer == Drain(Normalized(chunks)).1
    ensures forall k :: !BlankAt(buffer, k)
  {
    hide EventsOf, Drain, Normalize, BlankAt;
    events, buffer := [], "";
    NoEvents();
    NothingDrained();
    for i := 0 to |chunks|
      invariant events == EventsOf(Drain(Normalized(chunks[..i])).0)
      invariant buffer == Drain(Normalized(chunks[..i])).1
    {
      assert chunks[..i + 1][..i] == chunks[..i];
      buffer := buffer + Normalize(chunks[i]);
      DrainMore(Normalized(chunks[..i]), Normalize(chunks[i]));
      EventsConcat(Drain(Normalized(chunks[..i])).0, Drain(buffer).0);
      var more, rest := TakeEvents(buffer);
      events, buffer := events + more, rest;
    }
    assert chunks[..|chunks|] == chunks;
    ResidualHasNoBlank(Normalized(chunks));
  }

  lemma NothingDrained()
    ensures Drain("") == ([], "") && Normalized([]) == ""
  {
  }

  /** How many chunk boundaries separate a CR from its LF. */
  function CutLineEnds(chunks: seq<string>): nat
    decreases |chunks|
  {
    if chunks == [] then 0
    else
      var n := |chunks| - 1;
      CutLineEnds(chunks[..n]) + (if Separates(Concat(chunks[..n]), chunks[n]) then 1 else 0)
  }

  /** Every line end cut in two reaches the buffer as one line end too many. */
  lemma {:induction false} EachCutAddsALineEnd(chunks: seq<string>)
    ensures |Normalized(chunks)| == |Normalize(Concat(chunks))| + CutLineEnds(chunks)
    ensures CutLineEnds(chunks) == 0 ==> Normalized(chunks) == Normalize(Concat(chunks))
    decreases |chunks|
  {
    if chunks != [] {
      var n := |chunks| - 1;
      EachCutAddsALineEnd(chunks[..n]);
      NormalizePieces(Concat(chunks[..n]), chunks[n]);
    }
  }

  lemma {:induction false} NoneCut(chunks: seq<string>)
    ensures KeepsLineEnds(chunks) <==> CutLineEnds(chunks) == 0
    decreases |chunks|
  {
    hide Separates, Concat;
    if chunks != [] {
      var n := |chunks| - 1;
      NoneCut(chunks[..n]);
      assert forall k :: 0 <= k < n ==> chunks[..n][..k] == chunks[..k] && chunks[..n][k] == chunks[k];
      assert KeepsLineEnds(chunks)
        <==> KeepsLineEnds(chunks[..n]) && !Separates(Concat(chunks[..n]), chunks[n]);
    }
  }

  /** The text that drains into these blocks and this residual. */
  function Glue(blocks: seq<string>, rest: string): string {
    if blocks == [] then rest else blocks[0] + "\n\n" + Glue(blocks[1..], rest)
  }

  /** Draining forgets nothing: two texts with the same blocks and residual are the same. */
  lemma {:induction false} GlueDrained(s: string)
    ensures Glue(Drain(s).0, Drain(s).1) == s
    decreases |s|
  {
    hide FirstBlank;
    var k := FirstBlank(s);
    if k.Some? {
      GlueDrained(s[k.value + 2..]);
      assert Drain(s).0[1..] == Drain(s[k.value + 2..]).0;
      assert s == s[..k.value] + "\n\n" + s[k.value + 2..];
    }
  }

  /**
   Chunked decoding gives the blocks and the residual of the whole text if and only
   if no chunk boundary separates a CR from its LF.
   */
  lemma {:induction false} ChunksDecodeExactly(chunks: seq<string>)
    ensures Drain(Normalized(chunks)) == Drain(Normalize(Concat(chunks))) <==> KeepsLineEnds(chunks)
  {
    EachCutAddsALineEnd(chunks);
    NoneCut(chunks);
    GlueDrained(Normalized(chunks));
    GlueDrained(Normalize(Concat(chunks)));
  }

  /**
   Chunk independence: against a cutting that keeps line ends whole, another cutting
   of the same text decodes alike if and only if it keeps them whole too.
   */
  lemma ChunkIndependence(chunks: seq<string>, other: seq<string>)
    requires Concat(chunks) == Concat(other) && KeepsLineEnds(other)
    ensures Drain(Normalized(chunks)) == Drain(Normalized(other)) <==> KeepsLineEnds(chunks)
  {
    ChunksDecodeExactly(chunks);
    ChunksDecodeExactly(other);
  }

  // --------------------------------------------------------- what a server sends

  /** A keep-alive comment, or an event with one `data` line per line of its data. */
  datatype Message = Ping(text: string) | Send(event: Event)

  predicate OneLine(s: string) {
    '\n' !in s && '\r' !in s
  }

  predicate Sendable(m: Message) {
    match m
    case Ping(text) => OneLine(text)
    case Send(e) => OneLine(e.name) && '\r' !in e.data
  }

  function DataLines(lines: seq<string>): seq<string> {
    if lines == [] then []
    else DataLines(lines[..|lines| - 1]) + ["data: " + lines[|lines| - 1]]
  }

  function LinesOf(m: Message): seq<string> {
    match m
    case Ping(text) => [": " + text]
    case Send(e) => ["event: " + e.name] + DataLines(Split(e.data, '\n'))
  }

  /** Lines, each with a line end, and an empty line after them. */
  function Print(lines: seq<string>, end: string): string {
    if lines == [] then end else lines[0] + end + Print(lines[1..], end)
  }

  predicate IsLineEnd(end: string) {
    end == "\n" || end == "\r\n" || end == "\r"
  }

  function PrintAll(ms: seq<Message>, end: string): string {
    if ms == [] then "" else Print(LinesOf(ms[0]), end) + PrintAll(ms[1..], end)
  }

  function Sent(ms: seq<Message>): seq<Event> {
    if ms == [] then []
    else (if ms[0].Send? then [ms[0].event] else []) + Sent(ms[1..])
  }

  predicate Printable(lines: seq<string>) {
    forall i :: 0 <= i < |lines| ==> lines[i] != "" && OneLine(lines[i])
  }

  lemma {:induction false} SplitIsPlain(s: string)
    requires '\r' !in s
    ensures forall i :: 0 <= i < |Split(s, '\n')| ==> OneLine(Split(s, '\n')[i])
    decreases |s|
  {
    var k := Find(s, '\n');
    assert forall c :: c in s[..k] ==> c in s;
    if k < |s| {
      assert forall c :: c in s[k + 1..] ==> c in s;
      SplitIsPlain(s[k + 1..]);
    } else {
      assert s[..k] == s;
    }
  }

  // Reading back one message.

  lemma {:induction false} AbsorbData(name: string, lines: seq<string>)
    ensures AbsorbAll(["event: " + name] + DataLines(lines)) == Fields(name, lines)
    decreases |lines|
  {
    hide Absorb;
    var head := ["event: " + name];
    var all := head + DataLines(lines);
    if lines == [] {
      assert all == head && head[..0] == [];
      AbsorbEventLine(name);
    } else {
      var n := |lines| - 1;
      AbsorbData(name, lines[..n]);
      assert all[..|all| - 1] == head + DataLines(lines[..n]);
      AbsorbDataLine(Fields(name, lines[..n]), lines[n]);
      assert lines[..n] + [lines[n]] == lines;
    }
  }

  lemma AbsorbEventLine(name: string)
    ensures Absorb(Fields("", []), "event: " + name) == Fields(name, [])
  {
    var line := "event: " + name;
    FindFirst("event", ':', " " + name);
    assert line == "event" + [':'] + (" " + name);
    assert line[..5] == "event" && line[6..] == " " + name && (" " + name)[1..] == name;
  }

  lemma AbsorbDataLine(f: Fields, value: string)
    ensures Absorb(f, "data: " + value) == f.(data := f.data + [value])
  {
    var line := "data: " + value;
    FindFirst("data", ':', " " + value);
    assert line == "data" + [':'] + (" " + value);
    assert line[..4] == "data" && line[5..] == " " + value && (" " + value)[1..] == value;
    assert line[..4] != "event";
  }

  lemma {:induction false} DataLinesPrintable(lines: seq<string>)
    requires forall i :: 0 <= i < |lines| ==> OneLine(lines[i])
    ensures Printable(DataLines(lines))
  {
    if lines != [] { DataLinesPrintable(lines[..|lines| - 1]); }
  }

  lemma MessageLines(m: Message)
    requires Sendable(m)
    ensures LinesOf(m) != [] && Printable(LinesOf(m))
  {
    if m.Send? {
      SplitIsPlain(m.event.data);
      DataLinesPrintable(Split(m.event.data, '\n'));
    }
  }

  /** A message's block reads back as its event, a ping's as none. */
  lemma {:induction false} BlockReadsBack(m: Message)
    requires Sendable(m)
    ensures EventOf(Join(LinesOf(m), '\n')) == (if m.Send? then Some(m.event) else None)
  {
    hide Absorb;
    MessageLines(m);
    SplitJoined(LinesOf(m), '\n');
    if m.Send? {
      JoinSplit(m.event.data, '\n');
      AbsorbData(m.event.name, Split(m.event.data, '\n'));
    } else {
      var lines := LinesOf(m);
      PingIsSkipped(m.text);
      assert lines[..0] == [] && AbsorbAll([]) == Fields("", []);
      assert AbsorbAll(lines) == Absorb(AbsorbAll(lines[..0]), lines[0]);
    }
  }

  lemma PingIsSkipped(text: string)
    ensures Absorb(Fields("", []), ": " + text) == Fields("", [])
  {
  }

  // Where a message ends.

  lemma {:induction false} PrintIsJoin(lines: seq<string>)
    requires lines != []
    ensures Print(lines, "\n") == Join(lines, '\n') + "\n\n"
  {
    if |lines| == 1 {
      assert Print(lines[1..], "\n") == "\n";
    } else {
      PrintIsJoin(lines[1..]);
    }
  }

  lemma {:induction false} NoBlankInside(lines: seq<string>, rest: string, j: nat)
    requires lines != [] && Printable(lines) && j < |Join(lines, '\n')|
    ensures !BlankAt(Join(lines, '\n') + "\n\n" + rest, j)
  {
    var s := Join(lines, '\n') + "\n\n" + rest;
    var n := |lines[0]|;
    if j < n {
      assert s[j] == lines[0][j] && lines[0][j] in lines[0];
    } else {
      var tail := Join(lines[1..], '\n') + "\n\n" + rest;
      assert s == lines[0] + "\n" + tail;
      assert Join(lines[1..], '\n')[0] == lines[1][0] && lines[1][0] in lines[1];
      if j > n {
        NoBlankInside(lines[1..], rest, j - n - 1);
        assert BlankAt(s, j) <==> BlankAt(tail, j - n - 1);
      } else {
        assert s[j + 1] == tail[0];
      }
    }
  }

  lemma {:induction false} DrainPrinted(lines: seq<string>, rest: string)
    requires lines != [] && Printable(lines)
    ensures Drain(Print(lines, "\n") + rest)
            == ([Join(lines, '\n')] + Drain(rest).0, Drain(rest).1)
  {
    hide Join, Print;
    PrintIsJoin(lines);
    var block := Join(lines, '\n');
    var s := block + "\n\n" + rest;
    forall j | 0 <= j < |block| ensures !BlankAt(s, j) {
      NoBlankInside(lines, rest, j);
    }
    FirstBlankIs(s, |block|);
    assert s[..|block|] == block && s[|block| + 2..] == rest;
  }

  // Line ends.

  lemma {:induction false} NormalizePlain(s: string)
    requires OneLine(s)
    ensures Normalize(s) == s
  {
    if s != "" {
      assert s[0] in s;
      assert s == [s[0]] + s[1..];
      NormalizePlain(s[1..]);
    }
  }

  lemma NormalizeEnd(end: string)
    requires IsLineEnd(end)
    ensures Normalize(end) == "\n"
  {
    assert "\n"[1..] == "" && "\r"[1..] == "" && "\r\n"[2..] == "";
  }

  predicate StartsPlain(s: string) {
    s == "" || s[0] != '\n'
  }

  lemma {:induction false} NormalizePrinted(lines: seq<string>, end: string, rest: string)
    requires Printable(lines) && IsLineEnd(end) && StartsPlain(rest)
    ensures Normalize(Print(lines, end) + rest) == Print(lines, "\n") + Normalize(rest)
  {
    hide Normalize;
    NormalizeEnd(end);
    if lines == [] {
      NormalizePieces(end, rest);
    } else {
      var line, tail := lines[0], Print(lines[1..], end) + rest;
      assert Print(lines, end) + rest == line + (end + tail);
      assert line[|line| - 1] in line;
      NormalizePieces(line, end + tail);
      NormalizePlain(line);
      assert |lines| > 1 ==> lines[1][0] in lines[1];
      assert Separates(end, tail) ==> end[|end| - 1] == '\r' && tail[0] == '\n';
      NormalizePieces(end, tail);
      NormalizePrinted(lines[1..], end, rest);
    }
  }

  lemma {:induction false} PrintAllStarts(ms: seq<Message>, end: string)
    requires forall i :: 0 <= i < |ms| ==> Sendable(ms[i])
    ensures StartsPlain(PrintAll(ms, end))
  {
    if ms != [] {
      MessageLines(ms[0]);
      var line := LinesOf(ms[0])[0];
      assert line[0] in line && PrintAll(ms, end)[0] == line[0];
    }
  }

  /** Decoding what was sent, with any of the three line ends, returns the events sent. */
  lemma {:induction false} DecodeSent(ms: seq<Message>, end: string)
    requires (forall i :: 0 <= i < |ms| ==> Sendable(ms[i])) && IsLineEnd(end)
    ensures EventsOf(Drain(Normalize(PrintAll(ms, end))).0) == Sent(ms)
    ensures Drain(Normalize(PrintAll(ms, end))).1 == ""
  {
    hide Drain, Normalize, LinesOf, EventOf, Join, Print;
    if ms == [] {
      NothingDrained();
      NormalizePlain("");
      NoEvents();
    } else {
      var lines, rest := LinesOf(ms[0]), PrintAll(ms[1..], end);
      MessageLines(ms[0]);
      PrintAllStarts(ms[1..], end);
      NormalizePrinted(lines, end, rest);
      DrainPrinted(lines, Normalize(rest));
      BlockReadsBack(ms[0]);
      DecodeSent(ms[1..], end);
      EventsConcat([Join(lines, '\n')], Drain(Normalize(rest)).0);
      OneMoreBlock([], Join(lines, '\n'));
      NoEvents();
      assert [] + [Join(lines, '\n')] == [Join(lines, '\n')];
    }
  }

  /** The same through any chunking that keeps line ends whole. */
  lemma StreamRoundTrip(ms: seq<Message>, end: string, chunks: seq<string>)
    requires (forall i :: 0 <= i < |ms| ==> Sendable(ms[i])) && IsLineEnd(end)
    requires Concat(chunks) == PrintAll(ms, end) && KeepsLineEnds(chunks)
    ensures EventsOf(Drain(Normalized(chunks)).0) == Sent(ms) && Drain(Normalized(chunks)).1 == ""
  {
    ChunksDecodeExactly(chunks);
    DecodeSent(ms, end);
  }

  /**
   What a cut between CR and LF does: one line end becomes a blank line, which ends
   the event there.
   */
  lemma {:induction false} SeparatedLineEnd(a: string, b: string)
    requires OneLine(a) && OneLine(b)
    ensures Normalize((a + "\r") + ("\n" + b)) == a + "\n" + b
    ensures Normalize(a + "\r") + Normalize("\n" + b) == a + "\n\n" + b
    ensures FirstBlank(a + "\n\n" + b) == Some(|a|) && FirstBlank(a + "\n" + b) == None
  {
    hide Normalize, FirstBlank;
    NormalizePlain(a);
    NormalizePlain(b);
    NormalizeEnd("\r");
    NormalizeEnd("\n");
    NormalizeEnd("\r\n");
    assert a != "" ==> a[|a| - 1] in a;
    NormalizePieces(a, "\r");
    NormalizePieces("\n", b);
    NormalizePieces(a, "\r\n");
    NormalizePieces(a + "\r\n", b);
    assert (a + "\r") + ("\n" + b) == (a + "\r\n") + b;
    var cut, whole := a + "\n\n" + b, a + "\n" + b;
    PlainHasNoLineEnd(a);
    PlainHasNoLineEnd(b);
    FirstBlankIs(cut, |a|);
    assert forall k :: !BlankAt(whole, k);
  }

  lemma PlainHasNoLineEnd(s: string)
    requires OneLine(s)
    ensures forall k :: 0 <= k < |s| ==> s[k] != '\n'
  {
    assert forall k :: 0 <= k < |s| ==> s[k] in s;
  }
}
