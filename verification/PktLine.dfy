/**
 Git's pkt-line framing and the ref advertisement carried in it. A byte is kept as
 the character of its code.
 */
module PktLine {
  import opened Text
  import opened Wrappers

  type Bytes = string

  // -------------------------------------------------------------------- framing

  function HexValue(c: char): Option<nat> {
    if '0' <= c <= '9' then Some((c - '0') as nat)
    else if 'a' <= c <= 'f' then Some((c - 'a') as nat + 10)
    else if 'A' <= c <= 'F' then Some((c - 'A') as nat + 10)
    else None
  }

  /** The number four hexadecimal digits stand for. */
  function ParseLength(s: Bytes): Option<nat>
    requires |s| == 4
  {
    var a, b, c, d := HexValue(s[0]), HexValue(s[1]), HexValue(s[2]), HexValue(s[3]);
    if a.None? || b.None? || c.None? || d.None? then None
    else Some(a.value * 4096 + b.value * 256 + c.value * 16 + d.value)
  }

  /** What decoding a stream yields: it stops at the first packet it cannot read. */
  function Lines(data: Bytes): seq<Bytes>
    decreases |data|
  {
    if |data| < 4 || ParseLength(data[..4]).None? then []
    else
      var length := ParseLength(data[..4]).value;
      if length == 0 then Lines(data[4..])
      else if length < 4 || length > |data| then []
      else [data[4..length]] + Lines(data[length..])
  }

  method IterPktLines(data: Bytes) returns (lines: seq<Bytes>)
    ensures lines == Lines(data)
  {
    lines := [];
    var index := 0;
    while index + 4 <= |data|
      invariant 0 <= index <= |data|
      invariant lines + Lines(data[index..]) == Lines(data)
      decreases |data| - index
    {
      ghost var rest := data[index..];
      assert rest[..4] == data[index..index + 4];
      var length := ParseLength(data[index..index + 4]);
      if length.None? {
        assert Lines(rest) == [];
        return;
      }
      if length.value == 0 {
        assert rest[4..] == data[index + 4..];
        index := index + 4;
        continue;
      }
      if length.value < 4 || index + length.value > |data| {
        assert Lines(rest) == [];
        return;
      }
      var end := index + length.value;
      assert rest[4..length.value] == data[index + 4..end] && rest[length.value..] == data[end..];
      lines := lines + [data[index + 4..end]];
      index := end;
    }
    assert Lines(data[index..]) == [];
  }

  // -------------------------------------------------------------------- encoding

  datatype Packet = Flush | Line(payload: Bytes)

  const MAX_PACKET := 0xffff

  /** A payload fits when its length, header included, has four digits. */
  predicate Fits(p: Packet) {
    p.Line? ==> |p.payload| + 4 <= MAX_PACKET
  }

  predicate AllFit(ps: seq<Packet>) {
    forall i :: 0 <= i < |ps| ==> Fits(ps[i])
  }

  function HexDigit(n: nat): char
    requires n < 16
    ensures HexValue(HexDigit(n)) == Some(n)
  {
    if n < 10 then '0' + n as char else 'a' + (n - 10) as char
  }

  function PrintLength(n: nat): (s: Bytes)
    requires n <= MAX_PACKET
    ensures |s| == 4 && ParseLength(s) == Some(n)
  {
    var low := n % 4096;
    var lower := low % 256;
    [HexDigit(n / 4096), HexDigit(low / 256), HexDigit(lower / 16), HexDigit(lower % 16)]
  }

  function Encode(p: Packet): Bytes
    requires Fits(p)
  {
    match p
    case Flush => PrintLength(0)
    case Line(payload) => PrintLength(|payload| + 4) + payload
  }

  function EncodeAll(ps: seq<Packet>): Bytes
    requires AllFit(ps)
  {
    if ps == [] then [] else Encode(ps[0]) + EncodeAll(ps[1..])
  }

  function Payloads(ps: seq<Packet>): seq<Bytes> {
    if ps == [] then []
    else (if ps[0].Line? then [ps[0].payload] else []) + Payloads(ps[1..])
  }

  /** One encoded packet is read back, and decoding goes on right after it. */
  lemma DecodeFirst(p: Packet, rest: Bytes)
    requires Fits(p)
    ensures Lines(Encode(p) + rest) == (if p.Line? then [p.payload] else []) + Lines(rest)
  {
    var data := Encode(p) + rest;
    if p.Line? {
      var n := |p.payload| + 4;
      assert data[..4] == PrintLength(n) && data[4..n] == p.payload && data[n..] == rest;
    } else {
      assert data[..4] == PrintLength(0) && data[4..] == rest;
    }
  }

  /** Round trip: payloads come back in order, flush packets leave no trace. */
  lemma {:induction false} DecodeEncoded(ps: seq<Packet>, rest: Bytes)
    requires AllFit(ps)
    ensures Lines(EncodeAll(ps) + rest) == Payloads(ps) + Lines(rest)
  {
    hide Lines, Encode;
    if ps == [] {
      assert EncodeAll(ps) + rest == rest;
    } else {
      DecodeFirst(ps[0], EncodeAll(ps[1..]) + rest);
      DecodeEncoded(ps[1..], rest);
      assert EncodeAll(ps) + rest == Encode(ps[0]) + (EncodeAll(ps[1..]) + rest);
    }
  }

  /** Cutting any stream short loses only packets at its end. */
  lemma {:induction false} TruncatedIsPrefix(data: Bytes, n: nat)
    requires n <= |data|
    ensures Lines(data[..n]) <= Lines(data)
    decreases |data|
  {
    var cut := data[..n];
    if n >= 4 && ParseLength(data[..4]).Some? {
      assert cut[..4] == data[..4];
      var length := ParseLength(data[..4]).value;
      if length == 0 {
        assert cut[4..] == data[4..][..n - 4];
        TruncatedIsPrefix(data[4..], n - 4);
      } else if 4 <= length <= n {
        assert cut[4..length] == data[4..length] && cut[length..] == data[length..][..n - length];
        TruncatedIsPrefix(data[length..], n - length);
      }
    } else if n >= 4 {
      assert cut[..4] == data[..4];
    }
  }

  /** Exactly the sixteen digits, letters in either case, are hexadecimal. */
  lemma DigitsExactly(c: char)
    ensures HexValue(c).Some?
            <==> '0' <= c <= '9' || 'a' <= c <= 'f' || 'A' <= c <= 'F'
    ensures 'a' <= c <= 'f' ==> HexValue(c) == HexValue(c - 'a' + 'A')
  {
  }

  /** Decoding stops at a header that is cut off or no number, or at an impossible length. */
  lemma {:induction false} StopsThere(ps: seq<Packet>, rest: Bytes)
    requires AllFit(ps)
    requires |rest| < 4 || ParseLength(rest[..4]).None?
             || ParseLength(rest[..4]).value in {1, 2, 3} || ParseLength(rest[..4]).value > |rest|
    ensures Lines(EncodeAll(ps) + rest) == Payloads(ps)
  {
    DecodeEncoded(ps, rest);
  }

  // --------------------------------------------------------------- advertisements

  const SERVICE := "# service="
  const SYMREF_HEAD := "symref=HEAD:"

  function RStripNewlines(s: Bytes): Bytes {
    if s != "" && s[|s| - 1] == '\n' then RStripNewlines(s[..|s| - 1]) else s
  }

  predicate IsSpace(c: char) {
    c == ' ' || c == '\t' || c == '\n' || c == '\r' || c == 11 as char || c == 12 as char
  }

  /** The length of the word a text starts with. */
  function WordLength(s: Bytes): (n: nat)
    ensures n <= |s| && (s != "" && !IsSpace(s[0]) ==> n > 0)
  {
    if s == "" || IsSpace(s[0]) then 0 else 1 + WordLength(s[1..])
  }

  function Words(s: Bytes): seq<Bytes>
    decreases |s|
  {
    if s == "" then []
    else if IsSpace(s[0]) then Words(s[1..])
    else [s[..WordLength(s)]] + Words(s[WordLength(s)..])
  }

  /** The target of the first HEAD symref among some capabilities. */
  function HeadOf(caps: seq<Bytes>): Option<Bytes> {
    if caps == [] then None
    else if SYMREF_HEAD <= caps[0] then Some(caps[0][|SYMREF_HEAD|..])
    else HeadOf(caps[1..])
  }

  /** One line: the ref it names, if any, and the capabilities after its NUL. */
  datatype Parsed = NoRef | Ref(sha: Bytes, name: Bytes, caps: Bytes)

  function ParseLine(line: Bytes): Parsed {
    if SERVICE <= line then NoRef
    else
      var nul := Find(line, '\0');
      var text := RStripNewlines(line[..nul]);
      var caps := if nul < |line| then line[nul + 1..] else "";
      var space := Find(text, ' ');
      if text == "" || space == |text| then NoRef
      else Ref(text[..space], text[space + 1..], caps)
  }

  datatype Advertised = Advertised(refs: map<Bytes, Bytes>, head: Option<Bytes>)

  function Absorb(a: Advertised, line: Bytes): Advertised {
    match ParseLine(line)
    case NoRef => a
    case Ref(sha, name, caps) =>
      Advertised(a.refs[name := sha],
                 if caps != "" && a.head.None? then HeadOf(Words(caps)) else a.head)
  }

  function AbsorbAll(a: Advertised, lines: seq<Bytes>): Advertised
    decreases |lines|
  {
    if lines == [] then a
    else Absorb(AbsorbAll(a, lines[..|lines| - 1]), lines[|lines| - 1])
  }

  lemma AbsorbNothing(a: Advertised)
    ensures AbsorbAll(a, []) == a
  {
  }

  lemma AbsorbMore(a: Advertised, lines: seq<Bytes>, line: Bytes)
    ensures AbsorbAll(a, lines + [line]) == Absorb(AbsorbAll(a, lines), line)
  {
    assert (lines + [line])[..|lines|] == lines;
  }

  method FindHead(caps: Bytes) returns (head: Option<Bytes>)
    ensures head == HeadOf(Words(caps))
  {
    var words := Words(caps);
    for k := 0 to |words|
      invariant HeadOf(words) == HeadOf(words[k..])
    {
      if SYMREF_HEAD <= words[k] {
        return Some(words[k][|SYMREF_HEAD|..]);
      }
    }
    head := None;
  }

  method ParseAdvertisedRefs(payload: Bytes) returns (refs: map<Bytes, Bytes>, head: Option<Bytes>)
    ensures Advertised(refs, head) == AbsorbAll(Advertised(map[], None), Lines(payload))
  {
    hide AbsorbAll, HeadOf, Words, Lines, RStripNewlines;
    var lines := IterPktLines(payload);
    ghost var start := Advertised(map[], None);
    refs, head := map[], None;
    AbsorbNothing(start);
    for k := 0 to |lines|
      invariant Advertised(refs, head) == AbsorbAll(Advertised(map[], None), lines[..k])
    {
      var line := lines[k];
      assert lines[..k + 1] == lines[..k] + [line];
      AbsorbMore(start, lines[..k], line);
      if SERVICE <= line {
        continue;
      }
      var caps := "";
      var nul := Find(line, '\0');
      if nul < |line| {
        caps := line[nul + 1..];
      }
      line := RStripNewlines(line[..nul]);
      if line == "" {
        continue;
      }
      var space := Find(line, ' ');
      if space == |line| {
        continue;
      }
      refs := refs[line[space + 1..] := line[..space]];
      if caps != "" && head.None? {
        head := FindHead(caps);
      }
    }
    assert lines[..|lines|] == lines;
  }

  predicate OnlyNewlines(s: Bytes) {
    forall c :: c in s ==> c == '\n'
  }

  lemma {:induction false} StripsNewlines(s: Bytes, n: nat)
    requires n <= |s| && OnlyNewlines(s[n..]) && (n == 0 || s[n - 1] != '\n')
    ensures RStripNewlines(s) == s[..n]
    decreases |s|
  {
    if n < |s| {
      assert s[|s| - 1] in s[n..];
      var rest := s[..|s| - 1][n..];
      assert s[n..] == rest + [s[|s| - 1]];
      forall c | c in rest ensures c == '\n' { assert c in s[n..]; }
      StripsNewlines(s[..|s| - 1], n);
      assert s[..|s| - 1][..n] == s[..n];
    } else {
      assert s[..n] == s;
    }
  }

  /** A line is a sha, a space, a name and newlines; what follows a NUL are capabilities. */
  lemma {:induction false} ReadsRefLine(sha: Bytes, name: Bytes, newlines: Bytes, tail: Bytes)
    requires '\0' !in sha && ' ' !in sha && '\0' !in name && OnlyNewlines(newlines)
    requires name == "" || name[|name| - 1] != '\n'
    requires tail == "" || tail[0] == '\0'
    requires !(SERVICE <= sha + " " + name + newlines + tail)
    ensures ParseLine(sha + " " + name + newlines + tail)
            == Ref(sha, name, if tail == "" then "" else tail[1..])
  {
    hide Find, RStripNewlines;
    var text := sha + " " + name;
    var before := text + newlines;
    assert sha + " " + name + newlines + tail == before + tail;
    CutAtNul(before, tail);
    assert before[|text|..] == newlines && before[..|text|] == text;
    StripsNewlines(before, |text|);
    FindFirst(sha, ' ', name);
    assert text == sha + [' '] + name;
    assert text[..|sha|] == sha && text[|sha| + 1..] == name;
  }

  lemma CutAtNul(text: Bytes, tail: Bytes)
    requires '\0' !in text && (tail == "" || tail[0] == '\0')
    ensures var line := text + tail;
            && Find(line, '\0') == |text| && line[..|text|] == text
            && (tail != "" ==> line[|text| + 1..] == tail[1..])
  {
    if tail == "" {
      assert text + tail == text;
      FindNone(text, '\0');
    } else {
      assert text + tail == text + ['\0'] + tail[1..];
      FindFirst(text, '\0', tail[1..]);
    }
  }

  /** The service line, and one without a space before its NUL, name no ref. */
  lemma {:induction false} SkipsLine(text: Bytes, tail: Bytes)
    requires '\0' !in text && (tail == "" || tail[0] == '\0')
    requires SERVICE <= text + tail || ' ' !in text
    ensures ParseLine(text + tail) == NoRef
  {
    if !(SERVICE <= text + tail) {
      CutAtNul(text, tail);
      var stripped := RStripNewlines(text);
      StrippedIsPrefix(text);
      assert forall c :: c in stripped ==> c in text;
      FindNone(stripped, ' ');
    }
  }

  lemma {:induction false} StrippedIsPrefix(s: Bytes)
    ensures RStripNewlines(s) <= s
  {
    if s != "" && s[|s| - 1] == '\n' { StrippedIsPrefix(s[..|s| - 1]); }
  }

  /** The characters between words: space, tab, line feed, and three more. */
  lemma SpacesExactly(c: char)
    ensures IsSpace(c) <==> c as int in {9, 10, 11, 12, 13, 32}
  {
  }

  /** A later line for a ref wins, the first HEAD symref stays. */
  lemma {:induction false} LaterRefWins(a: Advertised, line: Bytes)
    requires ParseLine(line).Ref?
    ensures Absorb(a, line).refs == a.refs[ParseLine(line).name := ParseLine(line).sha]
    ensures a.head.Some? ==> Absorb(a, line).head == a.head
    ensures a.head.None? ==> Absorb(a, line).head == HeadOf(Words(ParseLine(line).caps))
  {
    assert Words("") == [] && HeadOf([]) == None;
  }

  // ----------------------------------------------- what a server sends, read back

  /** An object name is made of hexadecimal digits. */
  predicate IsSha(s: Bytes) {
    s != "" && forall i :: 0 <= i < |s| ==> HexValue(s[i]).Some?
  }

  predicate IsRefName(s: Bytes) {
    '\0' !in s && '\n' !in s
  }

  predicate IsCapability(s: Bytes) {
    s != "" && forall i :: 0 <= i < |s| ==> !IsSpace(s[i])
  }

  function PrintRef(r: (Bytes, Bytes)): Bytes {
    r.0 + " " + r.1 + "\n"
  }

  function PrintFirst(r: (Bytes, Bytes), caps: seq<Bytes>): Bytes {
    r.0 + " " + r.1 + "\0" + Join(caps, ' ') + "\n"
  }

  /** The ref lines: the capabilities follow the first ref. */
  function RefLines(refs: seq<(Bytes, Bytes)>, caps: seq<Bytes>): seq<Bytes>
    requires refs != []
  {
    var n := |refs| - 1;
    if n == 0 then [PrintFirst(refs[0], caps)]
    else RefLines(refs[..n], caps) + [PrintRef(refs[n])]
  }

  function AsPackets(lines: seq<Bytes>): seq<Packet> {
    if lines == [] then [] else [Line(lines[0])] + AsPackets(lines[1..])
  }

  const ANNOUNCEMENT := SERVICE + "git-upload-pack\n"

  /** The service announced, a flush, the refs, a flush. */
  function Print(refs: seq<(Bytes, Bytes)>, caps: seq<Bytes>): seq<Packet>
    requires refs != []
  {
    [Line(ANNOUNCEMENT), Flush] + (AsPackets(RefLines(refs, caps)) + [Flush])
  }

  ghost predicate Printable(refs: seq<(Bytes, Bytes)>, caps: seq<Bytes>) {
    && (forall i :: 0 <= i < |refs| ==> IsSha(refs[i].0) && IsRefName(refs[i].1))
    && (forall i :: 0 <= i < |caps| ==> IsCapability(caps[i]))
  }

  function MapOf(refs: seq<(Bytes, Bytes)>): map<Bytes, Bytes> {
    if refs == [] then map[]
    else
      var n := |refs| - 1;
      MapOf(refs[..n])[refs[n].1 := refs[n].0]
  }

  lemma {:induction false} RStripKeeps(s: Bytes)
    requires s != "" && s[|s| - 1] != '\n'
    ensures RStripNewlines(s) == s && RStripNewlines(s + "\n") == s
  {
    assert (s + "\n")[..|s|] == s;
  }

  /** A ref's own text, newline stripped, splits back at its first space. */
  lemma {:induction false} RefText(r: (Bytes, Bytes))
    requires IsSha(r.0) && IsRefName(r.1)
    ensures var text := r.0 + " " + r.1;
            && RStripNewlines(text) == text == RStripNewlines(text + "\n")
            && '\0' !in text && text != "" && Find(text, ' ') == |r.0|
            && text[..|r.0|] == r.0 && text[|r.0| + 1..] == r.1
            && text[0] != SERVICE[0]
  {
    var text := r.0 + " " + r.1;
    assert forall c :: c in r.0 ==> HexValue(c).Some?;
    FindFirst(r.0, ' ', r.1);
    if r.1 != "" { assert r.1[|r.1| - 1] in r.1; }
    assert text[|text| - 1] == (if r.1 == "" then ' ' else r.1[|r.1| - 1]);
    RStripKeeps(text);
    assert text[0] == r.0[0] != '#';
  }

  lemma {:induction false} ParsePrintedRef(r: (Bytes, Bytes))
    requires IsSha(r.0) && IsRefName(r.1)
    ensures ParseLine(PrintRef(r)) == Ref(r.0, r.1, "")
  {
    hide Find, RStripNewlines, IsSha, IsRefName;
    var line := PrintRef(r);
    RefText(r);
    FindNone(line, '\0');
    assert line[..|line|] == line;
  }

  lemma {:induction false} ParsePrintedFirst(r: (Bytes, Bytes), caps: seq<Bytes>)
    requires IsSha(r.0) && IsRefName(r.1)
    ensures ParseLine(PrintFirst(r, caps)) == Ref(r.0, r.1, Join(caps, ' ') + "\n")
  {
    hide Find, RStripNewlines, IsSha, IsRefName;
    var text, tail := r.0 + " " + r.1, Join(caps, ' ') + "\n";
    var line := PrintFirst(r, caps);
    assert line == text + "\0" + tail;
    RefText(r);
    FindFirst(text, '\0', tail);
    assert line[..|text|] == text && line[|text| + 1..] == tail;
  }

  lemma {:induction false} WordEnds(w: Bytes, rest: Bytes)
    requires forall i :: 0 <= i < |w| ==> !IsSpace(w[i])
    requires rest != "" && IsSpace(rest[0])
    ensures WordLength(w + rest) == |w|
  {
    if w == "" {
      assert w + rest == rest;
    } else {
      assert (w + rest)[1..] == w[1..] + rest;
      WordEnds(w[1..], rest);
    }
  }

  lemma WordThen(w: Bytes, rest: Bytes)
    requires IsCapability(w) && rest != "" && IsSpace(rest[0])
    ensures Words(w + rest) == [w] + Words(rest[1..])
  {
    hide IsSpace, WordLength;
    WordEnds(w, rest);
    var s := w + rest;
    assert s[0] == w[0] && s[..|w|] == w && s[|w|..] == rest;
  }

  /** Joined capabilities split back into themselves. */
  lemma {:induction false} WordsOfJoined(caps: seq<Bytes>)
    requires forall i :: 0 <= i < |caps| ==> IsCapability(caps[i])
    ensures Words(Join(caps, ' ') + "\n") == caps
  {
    hide Words, IsCapability;
    NoWords();
    if caps == [] {
      assert Join(caps, ' ') + "\n" == "\n";
    } else if |caps| == 1 {
      WordThen(caps[0], "\n");
      assert "\n"[1..] == "";
    } else {
      var tail := Join(caps[1..], ' ') + "\n";
      WordsOfJoined(caps[1..]);
      WordThen(caps[0], " " + tail);
      assert (" " + tail)[1..] == tail;
      assert Join(caps, ' ') + "\n" == caps[0] + (" " + tail);
    }
  }

  lemma NoWords()
    ensures Words("") == [] == Words("\n")
  {
    assert "\n"[1..] == "";
  }

  lemma {:induction false} AbsorbPrinted(refs: seq<(Bytes, Bytes)>, caps: seq<Bytes>, a: Advertised)
    requires refs != [] && Printable(refs, caps) && a == Advertised(map[], None)
    ensures AbsorbAll(a, RefLines(refs, caps)) == Advertised(MapOf(refs), HeadOf(caps))
    decreases |refs|
  {
    hide ParseLine, Words, Join, HeadOf, PrintFirst, PrintRef;
    var n := |refs| - 1;
    var lines := RefLines(refs, caps);
    assert lines[..|lines| - 1] == if n == 0 then [] else RefLines(refs[..n], caps);
    if n == 0 {
      ParsePrintedFirst(refs[0], caps);
      WordsOfJoined(caps);
      assert MapOf(refs) == map[refs[0].1 := refs[0].0] by { assert refs[..0] == []; }
    } else {
      AbsorbPrinted(refs[..n], caps, a);
      ParsePrintedRef(refs[n]);
    }
  }

  lemma {:induction false} PayloadsOf(lines: seq<Bytes>)
    ensures Payloads(AsPackets(lines) + [Flush]) == lines
  {
    if lines == [] {
      assert AsPackets(lines) + [Flush] == [Flush];
    } else {
      PayloadsOf(lines[1..]);
      assert (AsPackets(lines) + [Flush])[1..] == AsPackets(lines[1..]) + [Flush];
    }
  }

  lemma {:induction false} AbsorbSkips(a: Advertised, skipped: Bytes, lines: seq<Bytes>)
    requires Absorb(a, skipped) == a
    ensures AbsorbAll(a, [skipped] + lines) == AbsorbAll(a, lines)
    decreases |lines|
  {
    hide Absorb;
    var all := [skipped] + lines;
    if lines == [] {
      assert all[..0] == [];
    } else {
      var n := |lines| - 1;
      assert all[..|all| - 1] == [skipped] + lines[..n];
      AbsorbSkips(a, skipped, lines[..n]);
    }
  }

  /**
   The advertisement round trip: the refs and the default branch that were printed
   are what parsing the encoded stream returns.
   */
  lemma {:induction false} AdvertisementRoundTrip(refs: seq<(Bytes, Bytes)>, caps: seq<Bytes>)
    requires refs != [] && Printable(refs, caps) && AllFit(Print(refs, caps))
    ensures AbsorbAll(Advertised(map[], None), Lines(EncodeAll(Print(refs, caps))))
            == Advertised(MapOf(refs), HeadOf(caps))
  {
    hide Lines, EncodeAll, AsPackets, RefLines, AbsorbAll, Absorb, MapOf, HeadOf;
    var ps := Print(refs, caps);
    var start := Advertised(map[], None);
    var tail := AsPackets(RefLines(refs, caps)) + [Flush];
    DecodeEncoded(ps, "");
    assert EncodeAll(ps) + "" == EncodeAll(ps);
    NothingToRead();
    PayloadsOf(RefLines(refs, caps));
    assert ps[1..] == [Flush] + tail && ps[1..][1..] == tail;
    assert Payloads(ps) == [ANNOUNCEMENT] + RefLines(refs, caps);
    assert Lines(EncodeAll(ps)) == [ANNOUNCEMENT] + RefLines(refs, caps);
    AnnouncementIsSkipped(start);
    AbsorbSkips(start, ANNOUNCEMENT, RefLines(refs, caps));
    AbsorbPrinted(refs, caps, start);
  }

  lemma NothingToRead()
    ensures Lines("") == []
  {
  }

  lemma AnnouncementIsSkipped(a: Advertised)
    ensures Absorb(a, ANNOUNCEMENT) == a
  {
    assert SERVICE <= ANNOUNCEMENT;
  }

  /** With one HEAD symref among the capabilities, its target is the default branch. */
  lemma {:induction false} HeadAmong(before: seq<Bytes>, branch: Bytes, after: seq<Bytes>)
    requires forall i :: 0 <= i < |before| ==> !(SYMREF_HEAD <= before[i])
    ensures HeadOf(before + [SYMREF_HEAD + branch] + after) == Some(branch)
  {
    var caps := before + [SYMREF_HEAD + branch] + after;
    if before == [] {
      assert caps[0] == SYMREF_HEAD + branch && caps[0][|SYMREF_HEAD|..] == branch;
    } else {
      assert caps[0] == before[0] && caps[1..] == before[1..] + [SYMREF_HEAD + branch] + after;
      HeadAmong(before[1..], branch, after);
    }
  }
}
