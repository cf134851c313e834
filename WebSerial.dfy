/** The browser adapter of the plugin (`UsbSerialWeb` in dist/plugin.js):
    the hex classifier and renderer, the newline framer run by the listen
    loop, and the connection flags and port list of the adapter object.
    Web Serial calls (`getPorts`, `port.open`, the reader and writer
    streams) are parameters: each method is given what the browser returned. */
module WebSerial {
  import opened Results
  import opened Text
  import opened Hex

  // =====================================================================
  // Classification: `isHexData`.

  /** Every character is in the class `[0-9A-Fa-f\s]`. */
  predicate AllHexOrSpace(t: String) {
    t == [] || ((IsHexDigit(t[0]) || IsWhitespace(t[0])) && AllHexOrSpace(t[1..]))
  }

  lemma {:induction false} AllHexOrSpaceAt(t: String)
    ensures AllHexOrSpace(t) <==> forall k :: 0 <= k < |t| ==> IsHexDigit(t[k]) || IsWhitespace(t[k])
  {
    if t != [] {
      AllHexOrSpaceAt(t[1..]);
      assert forall k :: 1 <= k < |t| ==> t[k] == t[1..][k - 1];
    }
  }

  /** `/^[0-9A-Fa-f\s]+$/.test(str.replace(/\s/g, '')) && str.replace(/\s/g, '').length >= 4`. */
  predicate IsHexData(s: String) {
    var t := RemoveWhitespace(s);
    |t| > 0 && AllHexOrSpace(t) && |t| >= 4
  }

  /** The classifier without the stripping step: a string is hex-like exactly
      when every character is a hex digit or white space and at least four
      of them are hex digits. */
  lemma IsHexDataIff(s: String)
    ensures IsHexData(s) <==>
      (forall k :: 0 <= k < |s| ==> IsHexDigit(s[k]) || IsWhitespace(s[k])) && CountNonWhitespace(s) >= 4
  {
    var t := RemoveWhitespace(s);
    RemoveWhitespaceKeeps(s);
    AllHexOrSpaceAt(t);
    if IsHexData(s) {
      forall k | 0 <= k < |s| ensures IsHexDigit(s[k]) || IsWhitespace(s[k]) {
        if !IsWhitespace(s[k]) {
          assert s[k] in t;
          var m :| 0 <= m < |t| && t[m] == s[k];
        }
      }
    }
    if (forall k :: 0 <= k < |s| ==> IsHexDigit(s[k]) || IsWhitespace(s[k])) && CountNonWhitespace(s) >= 4 {
      forall k | 0 <= k < |t| ensures IsHexDigit(t[k]) || IsWhitespace(t[k]) {
        assert t[k] in s;
      }
    }
  }

  /** Without white space the stripping step is void: the string is hex-like
      exactly when it has at least four characters, all hex digits. */
  lemma IsHexDataNoSpace(s: String)
    requires forall k :: 0 <= k < |s| ==> !IsWhitespace(s[k])
    ensures IsHexData(s) <==> |s| >= 4 && forall k :: 0 <= k < |s| ==> IsHexDigit(s[k])
  {
    RemoveWhitespaceNone(s);
    AllHexOrSpaceAt(s);
  }

  /** Hex digits in either case count, and so does a word made only of the
      letters a-f. */
  lemma HexLikeExamples()
    ensures IsHexData("BEEF") && IsHexData("face")
  {
    IsHexDataNoSpace("BEEF");
    IsHexDataNoSpace("face");
  }

  /** White space between the digits is ignored. */
  lemma SpacedHexExample()
    ensures IsHexData("de ad")
  {
    assert RemoveWhitespace("de ad") == "dead";
  }

  /** Fewer than four digits, or any other letter, makes a string text. */
  lemma TextExamples()
    ensures !IsHexData("abc") && !IsHexData("12G4") && !IsHexData("")
  {
    IsHexDataNoSpace("abc");
    IsHexDataNoSpace("12G4");
    assert !IsHexDigit("12G4"[2]);
  }

  // =====================================================================
  // Rendering: `stringToHex`.

  /** `char.charCodeAt(0)` for one element of `Array.from(str)`: the code
      point itself in the Basic Multilingual Plane, the high surrogate of
      its UTF-16 encoding above it. */
  function CharCode(c: char): nat {
    if c as int < 0x10000 then c as int else 0xD800 + (c as int - 0x10000) / 0x400
  }

  /** `Array.from(str).map(c => c.charCodeAt(0).toString(16).padStart(2, '0')).join('')`. */
  function CodesHex(s: String): String {
    if s == [] then [] else PadStart2(ToStringRadix16(CharCode(s[0]))) + CodesHex(s[1..])
  }

  /** `stringToHex(str)`: hex-like input upper-cased as it stands, anything
      else encoded character by character. */
  function StringToHex(s: String): String {
    if IsHexData(s) then AsciiUpper(s) else AsciiUpper(CodesHex(s))
  }

  /** The pass-through branch keeps every character, white space included,
      and only raises the letters a-f. */
  lemma StringToHexPassThrough(s: String)
    requires IsHexData(s)
    ensures |StringToHex(s)| == |s|
    ensures forall k :: 0 <= k < |s| ==>
      StringToHex(s)[k] == if 'a' <= s[k] <= 'f' then (s[k] as int - 32) as char else s[k]
  {
    IsHexDataIff(s);
    AsciiUpperLength(s);
    forall k | 0 <= k < |s|
      ensures StringToHex(s)[k] == if 'a' <= s[k] <= 'f' then (s[k] as int - 32) as char else s[k]
    {
      AsciiUpperAt(s, k);
      assert IsHexDigit(s[k]) || IsWhitespace(s[k]);
    }
  }

  /** The per-character encoding written independently: each character's
      code as at least two upper-case digits, in order. */
  function EncodeCodes(s: String): String {
    if s == [] then [] else JsCodeHex(CharCode(s[0])) + EncodeCodes(s[1..])
  }

  lemma {:induction false} CodesHexUpper(s: String)
    ensures AsciiUpper(CodesHex(s)) == EncodeCodes(s)
  {
    if s != [] {
      CodesHexUpper(s[1..]);
      AsciiUpperAppend(PadStart2(ToStringRadix16(CharCode(s[0]))), CodesHex(s[1..]));
    }
  }

  /** The codes of a string whose characters are all below U+0100. */
  function Latin1Codes(s: String): (bs: seq<Byte>)
    requires forall k :: 0 <= k < |s| ==> s[k] as int < 0x100
    ensures |bs| == |s|
  {
    if s == [] then [] else [s[0] as int] + Latin1Codes(s[1..])
  }

  lemma {:induction false} EncodeLatin1(s: String)
    requires forall k :: 0 <= k < |s| ==> s[k] as int < 0x100
    ensures EncodeCodes(s) == HexOfBytes(Latin1Codes(s))
  {
    if s != [] {
      JsCodeHexOfByte(s[0] as int);
      EncodeLatin1(s[1..]);
    }
  }

  /** The encoding branch, for text whose codes are below 0x100: exactly two
      upper-case digits per character, in order, and reading the digit pairs
      back gives the character codes. */
  lemma StringToHexEncodes(s: String)
    requires !IsHexData(s)
    requires forall k :: 0 <= k < |s| ==> s[k] as int < 0x100
    ensures StringToHex(s) == HexOfBytes(Latin1Codes(s))
    ensures |StringToHex(s)| == 2 * |s|
    ensures ParseHexBytes(StringToHex(s)) == Some(Latin1Codes(s))
  {
    CodesHexUpper(s);
    EncodeLatin1(s);
    HexOfBytesRoundTrip(Latin1Codes(s));
  }

  lemma JsCodeHexLength(n: nat)
    ensures |JsCodeHex(n)| >= 2
    ensures |JsCodeHex(n)| == 2 <==> n < 256
  {
    AsciiUpperLength(PadStart2(ToStringRadix16(n)));
    if n < 256 {
      JsCodeHexOfByte(n);
    } else {
      JsCodeHexWide(n);
    }
  }

  /** The encoding takes at least two digits per character, and exactly two
      for every character only when all codes fit in one byte: a character
      from U+0100 on takes three or more. */
  lemma {:induction false} EncodeCodesLength(s: String)
    ensures |EncodeCodes(s)| >= 2 * |s|
    ensures |EncodeCodes(s)| == 2 * |s| <==> forall k :: 0 <= k < |s| ==> s[k] as int < 0x100
  {
    if s != [] {
      EncodeCodesLength(s[1..]);
      JsCodeHexLength(CharCode(s[0]));
      if s[0] as int < 0x100 {
        forall k | 1 <= k < |s| ensures s[k] == s[1..][k - 1] { }
      } else {
        assert |EncodeCodes(s)| > 2 * |s|;
      }
    }
  }

  /** Text is encoded character by character. */
  lemma StringToHexText()
    ensures StringToHex("hi") == "6869"
  {
    IsHexDataNoSpace("hi");
    StringToHexEncodes("hi");
    assert Latin1Codes("hi") == [0x68, 0x69];
    assert HexOfBytes([0x68, 0x69]) == ByteHex(0x68) + HexOfBytes([0x69]);
  }

  /** Hex-like input passes through, white space included, upper-cased. */
  lemma StringToHexPassThroughExamples()
    ensures StringToHex("de ad") == "DE AD"
  {
    SpacedHexExample();
  }

  // =====================================================================
  // Framing: one pass of the body of `listenForData`'s loop.

  /** All pieces of `s.split('\n')` but the last: the complete lines. */
  function CompleteLines(s: String): seq<String> {
    var pieces := Split(s, '\n');
    pieces[..|pieces| - 1]
  }

  /** `s.split('\n').pop()`: the text after the last newline. */
  function Leftover(s: String): String {
    var pieces := Split(s, '\n');
    pieces[|pieces| - 1]
  }

  /** The stream so far is its complete lines, each followed by the newline
      that ended it, and then the leftover, which holds no newline. */
  lemma LinesReconstruct(s: String)
    ensures s == Terminated(CompleteLines(s), '\n') + Leftover(s)
    ensures '\n' !in Leftover(s)
    ensures forall l | l in CompleteLines(s) :: '\n' !in l
  {
    var pieces := Split(s, '\n');
    var lines, rest := CompleteLines(s), Leftover(s);
    assert pieces == lines + [rest];
    JoinSplit(s, '\n');
    JoinAsTerminated(lines, rest, '\n');
    SplitPiecesFree(s, '\n');
    assert rest in pieces;
    forall l | l in lines
      ensures '\n' !in l
    {
      assert l in pieces;
    }
  }

  /** ... and that split is the only one: newline-free lines followed by
      their newlines and a newline-free rest split back into exactly them. */
  lemma LinesUnique(lines: seq<String>, rest: String)
    requires forall l | l in lines :: '\n' !in l
    requires '\n' !in rest
    ensures CompleteLines(Terminated(lines, '\n') + rest) == lines
    ensures Leftover(Terminated(lines, '\n') + rest) == rest
  {
    JoinAsTerminated(lines, rest, '\n');
    SplitJoin(lines + [rest], '\n');
    assert (lines + [rest])[..|lines|] == lines;
  }

  /** For each complete line: `if (line.trim()) processDataLine(line.trim())`. */
  function NonBlankLines(lines: seq<String>): seq<String> {
    if lines == [] then []
    else (if Trim(lines[0]) != [] then [Trim(lines[0])] else []) + NonBlankLines(lines[1..])
  }

  lemma {:induction false} NonBlankLinesAppend(a: seq<String>, b: seq<String>)
    ensures NonBlankLines(a + b) == NonBlankLines(a) + NonBlankLines(b)
  {
    if a == [] {
      assert a + b == b;
    } else {
      assert (a + b)[0] == a[0];
      assert (a + b)[1..] == a[1..] + b;
      NonBlankLinesAppend(a[1..], b);
    }
  }

  lemma NonBlankLinesSnoc(lines: seq<String>, line: String)
    ensures NonBlankLines(lines + [line]) ==
      NonBlankLines(lines) + if Trim(line) != [] then [Trim(line)] else []
  {
    NonBlankLinesAppend(lines, [line]);
    assert [line][1..] == [];
  }

  /** What is emitted from lines: non-empty, already trimmed, newline-free. */
  predicate WellFormedRecord(x: String) {
    x != [] && Trim(x) == x && '\n' !in x
  }

  lemma {:induction false} NonBlankLinesWellFormed(lines: seq<String>)
    requires forall l | l in lines :: '\n' !in l
    ensures forall x | x in NonBlankLines(lines) :: WellFormedRecord(x)
  {
    if lines != [] {
      assert lines[0] in lines;
      assert forall l | l in lines[1..] :: l in lines;
      NonBlankLinesWellFormed(lines[1..]);
      TrimIdempotent(lines[0]);
      TrimKeepsOut(lines[0], '\n');
    }
  }

  /** Lines that are all white space produce nothing. */
  lemma {:induction false} BlankLinesDropped(lines: seq<String>)
    requires forall l | l in lines :: Blank(l)
    ensures NonBlankLines(lines) == []
  {
    if lines != [] {
      assert lines[0] in lines;
      TrimEmptyIffBlank(lines[0]);
      assert forall l | l in lines[1..] :: l in lines;
      BlankLinesDropped(lines[1..]);
    }
  }

  /** The outcome of one chunk: the lines passed to `processDataLine`, in
      order, and the new content of `buffer`. */
  datatype Framed = Framed(records: seq<String>, buffer: String)

  /** The hex flush of lines 250-253 fires for this buffer and chunk. */
  predicate Flushes(buffer: String, chunk: String) {
    var rest := Leftover(buffer + chunk);
    |rest| > 0 && IsHexData(Trim(rest))
  }

  /** `buffer += value`, split on newlines, emit the non-blank complete
      lines trimmed, keep the last piece, and flush it at once if its trim
      looks like hex. */
  function ChunkStep(buffer: String, chunk: String): Framed {
    var s := buffer + chunk;
    var rest := Leftover(s);
    var lines := NonBlankLines(CompleteLines(s));
    if |rest| > 0 && IsHexData(Trim(rest)) then Framed(lines + [Trim(rest)], [])
    else Framed(lines, rest)
  }

  /** After a chunk the buffer holds no newline and is never hex-like: a
      hex-like leftover has been flushed. */
  lemma ChunkStepBuffer(buffer: String, chunk: String)
    ensures '\n' !in ChunkStep(buffer, chunk).buffer
    ensures ChunkStep(buffer, chunk).buffer == [] || !IsHexData(Trim(ChunkStep(buffer, chunk).buffer))
  {
    LinesReconstruct(buffer + chunk);
  }

  /** Without a flush nothing is lost: old buffer and chunk are exactly the
      complete lines with their newlines followed by the new buffer. With a
      flush the buffer is emptied and its trim is the last record. */
  lemma ChunkStepReconstruct(buffer: String, chunk: String)
    ensures !Flushes(buffer, chunk) ==>
      buffer + chunk == Terminated(CompleteLines(buffer + chunk), '\n') + ChunkStep(buffer, chunk).buffer
    ensures Flushes(buffer, chunk) ==>
      ChunkStep(buffer, chunk).buffer == [] &&
      ChunkStep(buffer, chunk).records[|ChunkStep(buffer, chunk).records| - 1] == Trim(Leftover(buffer + chunk))
  {
    LinesReconstruct(buffer + chunk);
  }

  /** Every record is non-empty, trimmed and free of newlines, and the
      records are exactly the non-blank complete lines in stream order,
      followed by the flushed leftover when there is one. */
  lemma ChunkStepRecords(buffer: String, chunk: String)
    ensures forall x | x in ChunkStep(buffer, chunk).records :: WellFormedRecord(x)
    ensures ChunkStep(buffer, chunk).records ==
      NonBlankLines(CompleteLines(buffer + chunk)) + (if Flushes(buffer, chunk) then [Trim(Leftover(buffer + chunk))] else [])
  {
    var s := buffer + chunk;
    LinesReconstruct(s);
    NonBlankLinesWellFormed(CompleteLines(s));
    if Flushes(buffer, chunk) {
      var rest := Leftover(s);
      TrimIdempotent(rest);
      TrimKeepsOut(rest, '\n');
      assert Trim(rest) != [];
    }
  }

  /** A chunk with no newline and a leftover that is not hex-like only
      grows the buffer. */
  lemma ChunkStepNoNewline(buffer: String, chunk: String)
    requires '\n' !in buffer + chunk
    requires !IsHexData(Trim(buffer + chunk))
    ensures ChunkStep(buffer, chunk) == Framed([], buffer + chunk)
  {
    LinesUnique([], buffer + chunk);
    assert Terminated([], '\n') + (buffer + chunk) == buffer + chunk;
  }

  /** The framing of a stream already split into newline-free lines and a
      newline-free rest. */
  lemma ChunkStepOf(buffer: String, chunk: String, lines: seq<String>, rest: String)
    requires buffer + chunk == Terminated(lines, '\n') + rest
    requires forall l | l in lines :: '\n' !in l
    requires '\n' !in rest
    ensures ChunkStep(buffer, chunk) ==
      if |rest| > 0 && IsHexData(Trim(rest)) then Framed(NonBlankLines(lines) + [Trim(rest)], [])
      else Framed(NonBlankLines(lines), rest)
  {
    LinesUnique(lines, rest);
  }

  /** One already-trimmed line and its newline: that line is the record. */
  lemma SingleLine(buffer: String, chunk: String, line: String)
    requires buffer + chunk == line + "\n"
    requires line != [] && '\n' !in line
    requires !IsWhitespace(line[0]) && !IsWhitespace(line[|line| - 1])
    ensures ChunkStep(buffer, chunk) == Framed([line], [])
  {
    assert Terminated([line], '\n') + [] == line + "\n";
    ChunkStepOf(buffer, chunk, [line], []);
    TrimUnchanged(line);
    assert NonBlankLines([line]) == [line];
  }

  /** A hex-like fragment without white space or newline is flushed at once. */
  lemma HexFragment(s: String)
    requires forall k :: 0 <= k < |s| ==> IsHexDigit(s[k])
    requires |s| >= 4
    ensures ChunkStep([], s) == Framed([s], [])
  {
    assert forall k :: 0 <= k < |s| ==> !IsWhitespace(s[k]);
    assert [] + s == Terminated([], '\n') + s;
    ChunkStepOf([], s, [], s);
    TrimUnchanged(s);
    IsHexDataNoSpace(s);
  }

  /** Appending text to a stream only extends its last piece: the complete
      lines of `s + t` are those of `s` followed by those of its leftover
      continued with `t`. */
  lemma LinesOfAppend(s: String, t: String)
    ensures CompleteLines(s + t) == CompleteLines(s) + CompleteLines(Leftover(s) + t)
    ensures Leftover(s + t) == Leftover(Leftover(s) + t)
  {
    var l1, r1 := CompleteLines(s), Leftover(s);
    LinesReconstruct(s);
    var l2, r2 := CompleteLines(r1 + t), Leftover(r1 + t);
    LinesReconstruct(r1 + t);
    calc {
      s + t;
      Terminated(l1, '\n') + r1 + t;
      Terminated(l1, '\n') + (Terminated(l2, '\n') + r2);
      { TerminatedAppend(l1, l2, '\n'); }
      Terminated(l1 + l2, '\n') + r2;
    }
    assert forall l | l in l1 + l2 :: '\n' !in l;
    LinesUnique(l1 + l2, r2);
  }

  /** Chunk boundaries are invisible unless the hex flush fires: feeding
      `c1` then `c2` emits the same records and leaves the same buffer as
      feeding `c1 + c2` at once, whenever the first chunk did not flush. */
  lemma ChunkBoundaryInvisible(buffer: String, c1: String, c2: String)
    requires !Flushes(buffer, c1)
    ensures ChunkStep(buffer, c1).records + ChunkStep(ChunkStep(buffer, c1).buffer, c2).records
         == ChunkStep(buffer, c1 + c2).records
    ensures ChunkStep(ChunkStep(buffer, c1).buffer, c2).buffer == ChunkStep(buffer, c1 + c2).buffer
  {
    var s1 := buffer + c1;
    var r1 := Leftover(s1);
    assert ChunkStep(buffer, c1) == Framed(NonBlankLines(CompleteLines(s1)), r1);
    LinesOfAppend(s1, c2);
    assert buffer + (c1 + c2) == s1 + c2;
    NonBlankLinesAppend(CompleteLines(s1), CompleteLines(r1 + c2));
  }

  /** The flush is what makes boundaries visible: "DEAD" then "BEEF\n"
      emits two records, the same text in one chunk emits one. */
  lemma ChunkBoundaryVisibleOnFlush()
    ensures ChunkStep([], "DEAD") == Framed(["DEAD"], [])
    ensures ChunkStep([], "BEEF\n") == Framed(["BEEF"], [])
    ensures ChunkStep([], "DEADBEEF\n") == Framed(["DEADBEEF"], [])
  {
    HexFragment("DEAD");
    SingleLine([], "BEEF\n", "BEEF");
    SingleLine([], "DEADBEEF\n", "DEADBEEF");
  }

  /** A line split across two chunks is put back together: the complete
      lines of the first chunk are emitted, the partial line waits in the
      buffer, and the second chunk completes it into one record. */
  lemma SplitLineReassembled(lines: seq<String>, head: String, tail: String)
    requires forall l | l in lines :: '\n' !in l
    requires '\n' !in head && '\n' !in tail
    requires head == [] || !IsHexData(Trim(head))
    ensures ChunkStep([], Terminated(lines, '\n') + head) == Framed(NonBlankLines(lines), head)
    ensures ChunkStep(head, tail + "\n") == Framed(NonBlankLines([head + tail]), [])
  {
    assert [] + (Terminated(lines, '\n') + head) == Terminated(lines, '\n') + head;
    ChunkStepOf([], Terminated(lines, '\n') + head, lines, head);
    assert head + (tail + "\n") == Terminated([head + tail], '\n') + [];
    assert '\n' !in head + tail;
    ChunkStepOf(head, tail + "\n", [head + tail], []);
  }

  /** Feeding a chunk with nothing in it to a buffer left by a previous
      chunk changes nothing. */
  lemma ChunkStepEmpty(buffer: String, chunk: String)
    ensures ChunkStep(ChunkStep(buffer, chunk).buffer, []) == Framed([], ChunkStep(buffer, chunk).buffer)
  {
    var b := ChunkStep(buffer, chunk).buffer;
    ChunkStepBuffer(buffer, chunk);
    assert b + [] == b;
    if b != [] {
      ChunkStepNoNewline(b, []);
    } else {
      LinesUnique([], []);
      assert Terminated([], '\n') + [] == [];
    }
  }

  // =====================================================================
  // Records and the listen loop.

  /** The payload of one `dataReceived` notification (`DataReceivedEvent`). */
  datatype DataReceivedEvent = DataReceivedEvent(data: String, hexData: String, timestamp: int, deviceId: int)

  /** `getInfo()` of a Web Serial port. */
  datatype PortInfo = PortInfo(usbVendorId: Option<int>, usbProductId: Option<int>,
                               manufacturerName: Option<String>, serialNumber: Option<String>)

  /** A Web Serial port object; `handle` stands for its identity. */
  datatype SerialPort = SerialPort(handle: nat, info: PortInfo)

  /** The device description of `listDevices` and `deviceAttached`. */
  datatype UsbDevice = UsbDevice(deviceId: int, vendorId: int, productId: int, deviceName: String,
                                 manufacturerName: Option<String>, serialNumber: Option<String>)

  /** Everything the adapter passes to `notifyListeners`, by event name. */
  datatype Notification =
    | DataReceived(line: String, timestamp: int)   // its payload is `Payload(line, timestamp)`
    | ConnectionStateChanged(connected: bool, deviceId: Option<int>)
    | DeviceAttached(device: UsbDevice)
    | DeviceDetached(detachedId: int)
    | Error(message: String)

  /** One result of `reader.read()`: a decoded chunk (with the clock reading
      used for its records), `done`, or a thrown error. */
  datatype ReadOutcome = Chunk(value: String, at: int) | StreamEnd | ReadFailure(reason: String)

  /** The `DataReceivedEvent` that `processDataLine(line)` sends for one
      emitted line: the line, its hex rendering, the clock reading, and
      device id 0. */
  function Payload(line: String, at: int): DataReceivedEvent {
    DataReceivedEvent(line, StringToHex(line), at, 0)
  }

  /** End to end for a hex record: a chunk holding one line of upper-case
      hex digits (such as "12345678") and its newline, on an empty buffer,
      emits exactly that line, and its event carries the line as both text
      and hex, with device id 0. */
  lemma HexRecordPayload(line: String, at: int)
    requires |line| >= 4 && forall k :: 0 <= k < |line| ==> IsUpperHexDigit(line[k])
    ensures ChunkStep([], line + "\n") == Framed([line], [])
    ensures Payload(line, at) == DataReceivedEvent(line, line, at, 0)
  {
    assert forall k :: 0 <= k < |line| ==> !IsWhitespace(line[k]) && line[k] != '\n';
    assert [] + (line + "\n") == line + "\n";
    SingleLine([], line + "\n", line);
    IsHexDataNoSpace(line);
    StringToHexPassThrough(line);
    assert StringToHex(line) == line;
  }

  function DataEvents(lines: seq<String>, at: int): seq<Notification> {
    if lines == [] then [] else [DataReceived(lines[0], at)] + DataEvents(lines[1..], at)
  }

  lemma {:induction false} DataEventsAppend(a: seq<String>, b: seq<String>, at: int)
    ensures DataEvents(a + b, at) == DataEvents(a, at) + DataEvents(b, at)
  {
    if a == [] {
      assert a + b == b;
    } else {
      assert (a + b)[0] == a[0];
      assert (a + b)[1..] == a[1..] + b;
      DataEventsAppend(a[1..], b, at);
    }
  }

  /** The notifications for the first `j + 1` complete lines extend those
      for the first `j` by the record of line `j`, if it is not blank. */
  lemma EmitStep(complete: seq<String>, j: nat, at: int)
    requires j < |complete|
    ensures DataEvents(NonBlankLines(complete[..j + 1]), at) ==
      DataEvents(NonBlankLines(complete[..j]), at) +
      if Trim(complete[j]) != [] then [DataReceived(Trim(complete[j]), at)] else []
  {
    var line := Trim(complete[j]);
    assert complete[..j + 1] == complete[..j] + [complete[j]];
    NonBlankLinesSnoc(complete[..j], complete[j]);
    if line != [] {
      DataEventsAppend(NonBlankLines(complete[..j]), [line], at);
      assert DataEvents([line], at) == [DataReceived(line, at)];
    } else {
      assert NonBlankLines(complete[..j + 1]) == NonBlankLines(complete[..j]);
    }
  }

  /** The notifications of the listen loop over a run of outcomes, starting
      from `buffer`: the records of every non-empty chunk; a read error adds
      one error notification and ends the loop; `done` ends it silently; the
      buffer left at the end is dropped. */
  function ListenEvents(outcomes: seq<ReadOutcome>, buffer: String): seq<Notification>
    decreases |outcomes|
  {
    if outcomes == [] then []
    else match outcomes[0]
      case StreamEnd => []
      case ReadFailure(reason) => [Error("Read error: " + reason)]
      case Chunk(value, at) =>
        if value == [] then ListenEvents(outcomes[1..], buffer)
        else
          var f := ChunkStep(buffer, value);
          DataEvents(f.records, at) + ListenEvents(outcomes[1..], f.buffer)
  }

  /** The notifications for one chunk's records: the complete lines', then
      the flushed leftover's when there is one. */
  lemma ChunkStepEvents(buffer: String, chunk: String, at: int)
    ensures DataEvents(ChunkStep(buffer, chunk).records, at) ==
      DataEvents(NonBlankLines(CompleteLines(buffer + chunk)), at) +
      if Flushes(buffer, chunk) then [DataReceived(Trim(Leftover(buffer + chunk)), at)] else []
  {
    var lines := NonBlankLines(CompleteLines(buffer + chunk));
    if Flushes(buffer, chunk) {
      var r := Trim(Leftover(buffer + chunk));
      DataEventsAppend(lines, [r], at);
      assert DataEvents([r], at) == [DataReceived(r, at)];
    }
  }

  /** One read of the loop: `ListenEvents` from read `i` on, unfolded once. */
  lemma ListenUnfold(outcomes: seq<ReadOutcome>, i: nat, buffer: String)
    requires i < |outcomes|
    ensures outcomes[i].StreamEnd? ==> ListenEvents(outcomes[i..], buffer) == []
    ensures outcomes[i].ReadFailure? ==>
      ListenEvents(outcomes[i..], buffer) == [Error("Read error: " + outcomes[i].reason)]
    ensures outcomes[i].Chunk? && outcomes[i].value == [] ==>
      ListenEvents(outcomes[i..], buffer) == ListenEvents(outcomes[i + 1..], buffer)
    ensures outcomes[i].Chunk? && outcomes[i].value != [] ==>
      var f := ChunkStep(buffer, outcomes[i].value);
      ListenEvents(outcomes[i..], buffer) ==
        DataEvents(f.records, outcomes[i].at) + ListenEvents(outcomes[i + 1..], f.buffer)
  {
    assert outcomes[i..][0] == outcomes[i] && outcomes[i..][1..] == outcomes[i + 1..];
  }

  /** Nothing is emitted once the stream has ended, whatever the transport
      would have delivered afterwards. */
  lemma {:induction false} ListenStopsAtEnd(pre: seq<ReadOutcome>, post: seq<ReadOutcome>, buffer: String)
    ensures ListenEvents(pre + [StreamEnd] + post, buffer) == ListenEvents(pre, buffer)
  {
    var all := pre + [StreamEnd] + post;
    if pre == [] {
      assert all[0] == StreamEnd;
    } else {
      assert all[0] == pre[0];
      assert all[1..] == pre[1..] + [StreamEnd] + post;
      match pre[0]
      case StreamEnd =>
      case ReadFailure(_) =>
      case Chunk(value, at) =>
        if value == [] {
          ListenStopsAtEnd(pre[1..], post, buffer);
        } else {
          ListenStopsAtEnd(pre[1..], post, ChunkStep(buffer, value).buffer);
        }
    }
  }

  /** Every data notification of the loop carries a line that is
      non-empty, trimmed and free of newlines. */
  lemma {:induction false} ListenEventsShape(outcomes: seq<ReadOutcome>, buffer: String)
    ensures forall n | n in ListenEvents(outcomes, buffer) && n.DataReceived? ::
      WellFormedRecord(n.line)
  {
    if outcomes != [] {
      match outcomes[0]
      case StreamEnd =>
      case ReadFailure(_) =>
      case Chunk(value, at) =>
        if value == [] {
          ListenEventsShape(outcomes[1..], buffer);
        } else {
          var f := ChunkStep(buffer, value);
          ChunkStepRecords(buffer, value);
          ListenEventsShape(outcomes[1..], f.buffer);
          DataEventsShape(f.records, at);
        }
    }
  }

  /** `processDataLine` once per line: notification i is the `dataReceived`
      of line i, with the chunk's clock reading, and there are no others. */
  lemma {:induction false} DataEventsEach(lines: seq<String>, at: int)
    ensures |DataEvents(lines, at)| == |lines|
    ensures forall i :: 0 <= i < |lines| ==> DataEvents(lines, at)[i] == DataReceived(lines[i], at)
  {
    if lines != [] {
      DataEventsEach(lines[1..], at);
    }
  }

  /** What `ListenEventsShape` needs of one chunk: when every record is well
      formed, so is the line of every `dataReceived` it produces. */
  lemma DataEventsShape(lines: seq<String>, at: int)
    requires forall x | x in lines :: WellFormedRecord(x)
    ensures forall n | n in DataEvents(lines, at) ::
      n.DataReceived? && n.timestamp == at && WellFormedRecord(n.line)
  {
    DataEventsEach(lines, at);
    forall n | n in DataEvents(lines, at)
      ensures n.DataReceived? && n.timestamp == at && WellFormedRecord(n.line)
    {
      var i :| 0 <= i < |DataEvents(lines, at)| && DataEvents(lines, at)[i] == n;
      assert lines[i] in lines;
    }
  }

  // =====================================================================
  // Connection options, device names and string lengths.

  /** `connect`'s `serialOptions` as given by the caller; absent fields are `None`. */
  datatype SerialOptions = SerialOptions(baudRate: Option<int>, dataBits: Option<int>,
                                         stopBits: Option<int>, parity: Option<String>)

  /** The object handed to `port.open`. */
  datatype OpenOptions = OpenOptions(baudRate: int, dataBits: int, stopBits: int, parity: String,
                                     bufferSize: int, flowControl: String)

  /** `value || fallback` for a number: an absent value and 0 both fall back. */
  function NumberOr(value: Option<int>, fallback: int): int {
    if value.Some? && value.value != 0 then value.value else fallback
  }

  /** `value || fallback` for a string: an absent value and "" both fall back. */
  function StringOr(value: Option<String>, fallback: String): String {
    if value.Some? && value.value != [] then value.value else fallback
  }

  /** The options of lines 108-115. */
  function OpenOptionsFor(o: SerialOptions): OpenOptions {
    OpenOptions(NumberOr(o.baudRate, 115200), NumberOr(o.dataBits, 8), NumberOr(o.stopBits, 1),
                StringOr(o.parity, "none"), 32768, "none")
  }

  /** Missing options give 115200 baud, 8 data bits, 1 stop bit, no parity;
      a zero or an empty string counts as missing; every other given value
      is used as it is; the buffer size and flow control are fixed. */
  lemma OpenOptionsDefaults(o: SerialOptions)
    ensures OpenOptionsFor(SerialOptions(None, None, None, None)) == OpenOptions(115200, 8, 1, "none", 32768, "none")
    ensures OpenOptionsFor(SerialOptions(Some(0), Some(0), Some(0), Some(""))) == OpenOptionsFor(SerialOptions(None, None, None, None))
    ensures o.baudRate.Some? && o.baudRate.value != 0 ==> OpenOptionsFor(o).baudRate == o.baudRate.value
    ensures o.dataBits.Some? && o.dataBits.value != 0 ==> OpenOptionsFor(o).dataBits == o.dataBits.value
    ensures o.stopBits.Some? && o.stopBits.value != 0 ==> OpenOptionsFor(o).stopBits == o.stopBits.value
    ensures o.parity.Some? && o.parity.value != [] ==> OpenOptionsFor(o).parity == o.parity.value
    ensures OpenOptionsFor(o).bufferSize == 32768 && OpenOptionsFor(o).flowControl == "none"
  {
  }

  /** The name a vendor id gets in `getDeviceName`'s `vendorMap`. */
  function VendorName(vendorId: Option<int>): String {
    match vendorId
    case Some(0x10C4) => "Silicon Labs CP210x"
    case Some(0x1A86) => "QinHeng CH340"
    case Some(0x0403) => "FTDI"
    case Some(0x303A) => "Espressif ESP32"
    case _ => "Unknown"
  }

  /** `getDeviceName(vendorId, _productId, index)`. */
  function GetDeviceName(vendorId: Option<int>, index: nat): String {
    VendorName(vendorId) + " (Port " + Decimal(index) + ")"
  }

  /** The digits at the end of a string. */
  function DigitSuffix(s: String): (r: String)
    ensures forall k :: 0 <= k < |r| ==> '0' <= r[k] <= '9'
  {
    if s != [] && '0' <= s[|s| - 1] <= '9' then DigitSuffix(s[..|s| - 1]) + [s[|s| - 1]] else []
  }

  lemma {:induction false} DigitSuffixOf(a: String, d: String)
    requires a == [] || !('0' <= a[|a| - 1] <= '9')
    requires forall k :: 0 <= k < |d| ==> '0' <= d[k] <= '9'
    ensures DigitSuffix(a + d) == d
  {
    if d == [] {
      assert a + d == a;
    } else {
      assert (a + d)[..|a + d| - 1] == a + d[..|d| - 1];
      DigitSuffixOf(a, d[..|d| - 1]);
      assert d == d[..|d| - 1] + [d[|d| - 1]];
    }
  }

  /** Reads the port index back out of a device name. */
  function PortIndexOf(name: String): nat {
    if name != [] then DecimalValue(DigitSuffix(name[..|name| - 1])) else 0
  }

  lemma PortIndexAfterSpace(a: String, index: nat)
    requires a != [] && a[|a| - 1] == ' '
    ensures PortIndexOf(a + Decimal(index) + ")") == index
  {
    var name := a + Decimal(index) + ")";
    assert name[..|name| - 1] == a + Decimal(index);
    DigitSuffixOf(a, Decimal(index));
    DecimalRoundTrip(index);
  }

  /** The name determines the port index it was made for, whatever the vendor. */
  lemma DeviceNameIndex(vendorId: Option<int>, index: nat)
    ensures PortIndexOf(GetDeviceName(vendorId, index)) == index
    ensures VendorName(vendorId) <= GetDeviceName(vendorId, index)
  {
    var a := VendorName(vendorId) + " (Port ";
    assert a[|a| - 1] == ' ';
    assert GetDeviceName(vendorId, index) == a + Decimal(index) + ")";
    PortIndexAfterSpace(a, index);
  }

  /** The four vendors of the map get their names; every other id, and no
      id at all, gives "Unknown". */
  lemma VendorNames(vendorId: Option<int>)
    ensures VendorName(vendorId) != "Unknown" <==> vendorId in {Some(0x10C4), Some(0x1A86), Some(0x0403), Some(0x303A)}
    ensures GetDeviceName(Some(0x303A), 2) == "Espressif ESP32 (Port 2)"
  {
  }

  /** `str.length`: the number of UTF-16 code units, two for a character
      above U+FFFF. */
  function Utf16Length(s: String): (n: nat)
    ensures |s| <= n <= 2 * |s|
    ensures n == |s| <==> forall k :: 0 <= k < |s| ==> s[k] as int < 0x10000
  {
    if s == [] then 0
    else
      var rest := Utf16Length(s[1..]);
      assert forall k :: 1 <= k < |s| ==> s[k] == s[1..][k - 1];
      (if s[0] as int >= 0x10000 then 2 else 1) + rest
  }

  /** `Array.prototype.indexOf`: the first position of `p`, or -1. */
  function IndexOf(ports: seq<SerialPort>, p: SerialPort): (i: int)
    ensures -1 <= i < |ports|
    ensures i == -1 <==> p !in ports
    ensures i >= 0 ==> ports[i] == p && p !in ports[..i]
  {
    if ports == [] then -1
    else if ports[0] == p then 0
    else
      var j := IndexOf(ports[1..], p);
      assert ports == [ports[0]] + ports[1..];
      if j == -1 then -1
      else
        assert ports[..j + 1] == [ports[0]] + ports[1..][..j];
        j + 1
  }

  /** The description of port number `index`, as `listDevices` and the
      attach handler build it. */
  function DeviceFor(p: SerialPort, index: nat): UsbDevice {
    UsbDevice(index, p.info.usbVendorId.GetOr(0), p.info.usbProductId.GetOr(0),
              GetDeviceName(p.info.usbVendorId, index), p.info.manufacturerName, p.info.serialNumber)
  }

  // =====================================================================
  // The adapter object.

  /** The steps of `disconnect` that can throw, in the order they run. */
  datatype DisconnectStep = CancelReader | CloseWriter | ClosePort

  /** Which step of `disconnect` threw (0, 1 or 2), or 3 when none did: a
      step runs only when its object exists and no earlier step threw. */
  function ThrownAt(failure: Option<DisconnectStep>, hadReader: bool, hadWriter: bool, hadPort: bool): nat {
    if hadReader && failure == Some(CancelReader) then 0
    else if hadWriter && failure == Some(CloseWriter) then 1
    else if hadPort && failure == Some(ClosePort) then 2
    else 3
  }

  const NotSupportedMessage: String :=
    "Web Serial API not supported. Please use Chrome/Edge 89+ or enable experimental web platform features."

  class UsbSerialWeb {
    var port: Option<SerialPort>
    var hasReader: bool
    var hasWriter: bool
    var listening: bool
    var availablePorts: seq<SerialPort>
    var connected: bool
    /** Every notification sent to listeners, oldest first. */
    var notifications: seq<Notification>

    /** Being connected means a port with an open reader and writer. */
    ghost predicate Valid()
      reads this
    {
      connected ==> port.Some? && hasReader && hasWriter
    }

    constructor (serialSupported: bool)
      ensures Valid()
      ensures port == None && !hasReader && !hasWriter && !listening && !connected && availablePorts == []
      ensures notifications == if serialSupported then [] else [Error(NotSupportedMessage)]
    {
      port := None;
      hasReader := false;
      hasWriter := false;
      listening := false;
      availablePorts := [];
      connected := false;
      notifications := [];
      if !serialSupported {
        notifications := notifications + [Error(NotSupportedMessage)];
      }
    }

    method NotifyError(message: String)
      modifies this`notifications
      ensures notifications == old(notifications) + [Error(message)]
    {
      notifications := notifications + [Error(message)];
    }

    /** `listDevices`, given whether Web Serial exists and what `getPorts` returned. */
    method ListDevices(serialSupported: bool, ports: seq<SerialPort>) returns (r: Result<seq<UsbDevice>>)
      requires Valid()
      modifies this`availablePorts
      ensures Valid()
      ensures !serialSupported ==> r == Err("Web Serial API not supported") && availablePorts == old(availablePorts)
      ensures serialSupported ==> availablePorts == ports && r.Ok? && |r.value| == |ports|
      ensures serialSupported ==> forall i :: 0 <= i < |ports| ==> r.value[i] == DeviceFor(ports[i], i)
    {
      if !serialSupported {
        return Err("Web Serial API not supported");
      }
      availablePorts := ports;
      r := Ok(seq(|ports|, i requires 0 <= i < |ports| => DeviceFor(ports[i], i)));
    }

    /** `connect`: `navigatorPorts` is what `getPorts` returns and `open`
        says whether `port.open` throws for these options, with its message. */
    method Connect(deviceId: int, options: SerialOptions, navigatorPorts: seq<SerialPort>,
                   open: OpenOptions -> Option<String>) returns (r: Result<bool>)
      requires Valid()
      modifies this
      ensures Valid()
      ensures availablePorts == old(availablePorts) && listening == old(listening)
      ensures old(port).Some? ==> port == old(port)
      ensures old(port).None? ==> port == if 0 <= deviceId < |navigatorPorts| then Some(navigatorPorts[deviceId]) else None
      ensures port.None? ==>
        var m := "No port available for device ID " + DecimalInt(deviceId);
        r == Err("Connection failed: " + m) && !connected &&
        hasReader == old(hasReader) && hasWriter == old(hasWriter) &&
        notifications == old(notifications) + [Error(m), Error("Connection failed: " + m)]
      ensures port.Some? && open(OpenOptionsFor(options)).Some? ==>
        var m := "Connection failed: " + open(OpenOptionsFor(options)).value;
        r == Err(m) && !connected && hasReader == old(hasReader) && hasWriter == old(hasWriter) &&
        notifications == old(notifications) + [Error(m)]
      ensures port.Some? && open(OpenOptionsFor(options)).None? ==>
        r == Ok(true) && connected && hasReader && hasWriter &&
        notifications == old(notifications) + [ConnectionStateChanged(true, Some(deviceId))]
    {
      if port.None? {
        port := if 0 <= deviceId < |navigatorPorts| then Some(navigatorPorts[deviceId]) else None;
      }
      if port.None? {
        var message := "No port available for device ID " + DecimalInt(deviceId);
        NotifyError(message);
        connected := false;
        NotifyError("Connection failed: " + message);
        return Err("Connection failed: " + message);
      }
      var serialOptions := OpenOptionsFor(options);
      var failure := open(serialOptions);
      if failure.Some? {
        connected := false;
        NotifyError("Connection failed: " + failure.value);
        return Err("Connection failed: " + failure.value);
      }
      connected := true;
      hasReader := true;
      hasWriter := true;
      notifications := notifications + [ConnectionStateChanged(true, Some(deviceId))];
      r := Ok(true);
    }

    /** `disconnect`: `failure` names the step whose call throws, if any.
        The flags are cleared first; a throwing step stops the release of
        what follows it; the outcome is reported as disconnected either way. */
    method Disconnect(failure: Option<DisconnectStep>) returns (disconnected: bool)
      requires Valid()
      modifies this
      ensures Valid()
      ensures disconnected && !listening && !connected && availablePorts == old(availablePorts)
      ensures var t := ThrownAt(failure, old(hasReader), old(hasWriter), old(port).Some?);
        hasReader == (old(hasReader) && t == 0) &&
        hasWriter == (old(hasWriter) && t <= 1) &&
        port == (if t <= 2 then old(port) else None)
      ensures notifications == old(notifications) + [ConnectionStateChanged(false, None)]
    {
      listening := false;
      connected := false;
      if hasReader {
        if failure == Some(CancelReader) {
          notifications := notifications + [ConnectionStateChanged(false, None)];
          return true;
        }
        hasReader := false;
      }
      if hasWriter {
        if failure == Some(CloseWriter) {
          notifications := notifications + [ConnectionStateChanged(false, None)];
          return true;
        }
        hasWriter := false;
      }
      if port.Some? {
        if failure == Some(ClosePort) {
          notifications := notifications + [ConnectionStateChanged(false, None)];
          return true;
        }
        port := None;
      }
      notifications := notifications + [ConnectionStateChanged(false, None)];
      disconnected := true;
    }

    /** `write`: `failure` is the message of a throwing `writer.write`. The
        count reported is the length of the string in UTF-16 code units. */
    method Write(data: String, failure: Option<String>) returns (r: Result<nat>)
      modifies this`notifications
      ensures !hasWriter || !connected ==>
        r == Err("Cannot write: Not connected to any device") &&
        notifications == old(notifications) + [Error("Cannot write: Not connected to any device")]
      ensures hasWriter && connected && failure.Some? ==>
        r == Err("Write failed: " + failure.value) &&
        notifications == old(notifications) + [Error("Write failed: " + failure.value)]
      ensures hasWriter && connected && failure.None? ==>
        r == Ok(Utf16Length(data)) && notifications == old(notifications)
    {
      if !hasWriter || !connected {
        NotifyError("Cannot write: Not connected to any device");
        return Err("Cannot write: Not connected to any device");
      }
      if failure.Some? {
        NotifyError("Write failed: " + failure.value);
        return Err("Write failed: " + failure.value);
      }
      r := Ok(Utf16Length(data));
    }

    /** `read`: one `reader.read()`. */
    method Read(outcome: ReadOutcome) returns (r: Result<String>)
      modifies this`notifications
      ensures !hasReader || !connected ==>
        r == Err("Cannot read: Not connected to any device") &&
        notifications == old(notifications) + [Error("Cannot read: Not connected to any device")]
      ensures hasReader && connected && outcome.Chunk? ==>
        r == Ok(outcome.value) && notifications == old(notifications)
      ensures hasReader && connected && outcome.StreamEnd? ==>
        r == Err("Read failed: Stream closed") &&
        notifications == old(notifications) + [Error("Read failed: Stream closed")]
      ensures hasReader && connected && outcome.ReadFailure? ==>
        r == Err("Read failed: " + outcome.reason) &&
        notifications == old(notifications) + [Error("Read failed: " + outcome.reason)]
    {
      if !hasReader || !connected {
        NotifyError("Cannot read: Not connected to any device");
        return Err("Cannot read: Not connected to any device");
      }
      match outcome
      case Chunk(value, _) =>
        r := Ok(value);
      case StreamEnd =>
        NotifyError("Read failed: Stream closed");
        r := Err("Read failed: Stream closed");
      case ReadFailure(reason) =>
        NotifyError("Read failed: " + reason);
        r := Err("Read failed: " + reason);
    }

    /** `startListening`: rejected unless connected; otherwise sets the flag
        (the loop it starts is `ListenForData`). */
    method StartListening() returns (r: Result<()>)
      requires Valid()
      modifies this`listening
      ensures Valid()
      ensures !connected ==> r == Err("Cannot start listening: Not connected to any device") && listening == old(listening)
      ensures connected ==> r == Ok(()) && listening
    {
      if !connected {
        return Err("Cannot start listening: Not connected to any device");
      }
      listening := true;
      r := Ok(());
    }

    method StopListening()
      requires Valid()
      modifies this`listening
      ensures Valid() && !listening
    {
      listening := false;
    }

    /** `processDataLine`: one `dataReceived` notification for `line`. */
    method ProcessDataLine(line: String, at: int)
      modifies this`notifications
      ensures notifications == old(notifications) + [DataReceived(line, at)]
    {
      notifications := notifications + [DataReceived(line, at)];
    }

    /** The inner loop of `listenForData`: each complete line that is not
        blank after trimming goes to `processDataLine`, trimmed, in order. */
    method ProcessLines(complete: seq<String>, at: int)
      modifies this`notifications
      ensures notifications == old(notifications) + DataEvents(NonBlankLines(complete), at)
    {
      var j := 0;
      while j < |complete|
        invariant 0 <= j <= |complete|
        invariant notifications == old(notifications) + DataEvents(NonBlankLines(complete[..j]), at)
      {
        var line := Trim(complete[j]);
        EmitStep(complete, j, at);
        if line != [] {
          ProcessDataLine(line, at);
        }
        j := j + 1;
      }
      assert complete[..j] == complete;
    }

    /** The body of `listenForData`'s loop for one non-empty chunk: the
        complete lines are processed, and the leftover is returned as the new
        buffer or flushed at once when it looks like hex. */
    method FrameChunk(buffer: String, value: String, at: int) returns (rest: String)
      modifies this`notifications
      ensures rest == ChunkStep(buffer, value).buffer
      ensures notifications == old(notifications) + DataEvents(ChunkStep(buffer, value).records, at)
    {
      var joined := buffer + value;
      var lines := Split(joined, '\n');
      var complete := lines[..|lines| - 1];
      rest := lines[|lines| - 1];
      ChunkStepEvents(buffer, value, at);
      ProcessLines(complete, at);
      if |rest| > 0 && IsHexData(Trim(rest)) {
        ProcessDataLine(Trim(rest), at);
        rest := [];
      }
    }

    /** `listenForData` over the reads the transport delivers while the
        loop runs; `buffer` is the loop's own local. */
    method ListenForData(outcomes: seq<ReadOutcome>)
      modifies this`notifications
      ensures notifications == old(notifications) +
        if listening && hasReader && connected then ListenEvents(outcomes, []) else []
    {
      var buffer: String := [];
      var i := 0;
      while i < |outcomes| && listening && hasReader && connected
        invariant 0 <= i <= |outcomes|
        invariant listening && hasReader && connected ==>
          old(notifications) + ListenEvents(outcomes, []) == notifications + ListenEvents(outcomes[i..], buffer)
        invariant !(listening && hasReader && connected) ==> notifications == old(notifications)
      {
        var done;
        buffer, done := ListenRead(outcomes, i, buffer);
        if done {
          break;
        }
        i := i + 1;
      }
    }

    /** One pass of `listenForData`'s loop: `done` ends the loop silently, a
        read error is reported and ends it, and a chunk is framed (an empty
        one is skipped). */
    method ListenRead(outcomes: seq<ReadOutcome>, i: nat, buffer: String) returns (next: String, done: bool)
      requires i < |outcomes| && listening
      modifies this`notifications
      ensures done ==> notifications == old(notifications) + ListenEvents(outcomes[i..], buffer)
      ensures !done ==>
        old(notifications) + ListenEvents(outcomes[i..], buffer) ==
        notifications + ListenEvents(outcomes[i + 1..], next)
    {
      ListenUnfold(outcomes, i, buffer);
      next := buffer;
      done := false;
      match outcomes[i]
      case StreamEnd =>
        done := true;
      case ReadFailure(reason) =>
        if listening {
          NotifyError("Read error: " + reason);
        }
        done := true;
      case Chunk(value, at) =>
        if value != [] {
          next := FrameChunk(buffer, value, at);
        }
    }

    /** The `connect` event of `navigator.serial`: the port is appended and
        announced with the next free index as its id. */
    method OnPortConnected(p: SerialPort)
      requires Valid()
      modifies this`availablePorts, this`notifications
      ensures Valid()
      ensures availablePorts == old(availablePorts) + [p]
      ensures notifications == old(notifications) + [DeviceAttached(DeviceFor(p, |old(availablePorts)|))]
      ensures availablePorts[DeviceFor(p, |old(availablePorts)|).deviceId] == p
    {
      var attached := DeviceFor(p, |availablePorts|);
      availablePorts := availablePorts + [p];
      notifications := notifications + [DeviceAttached(attached)];
    }

    /** The `disconnect` event of `navigator.serial`: a known port is removed
        at its index and that index announced, and the adapter disconnects
        if it was the port in use; an unknown port changes nothing. */
    method OnPortDisconnected(p: SerialPort, failure: Option<DisconnectStep>)
      requires Valid()
      modifies this
      ensures Valid()
      ensures p !in old(availablePorts) ==>
        availablePorts == old(availablePorts) && notifications == old(notifications)
      ensures p in old(availablePorts) ==>
        var i := IndexOf(old(availablePorts), p);
        availablePorts == old(availablePorts)[..i] + old(availablePorts)[i + 1..] &&
        notifications == old(notifications) + [DeviceDetached(i)] +
          if old(port) == Some(p) then [ConnectionStateChanged(false, None)] else []
      ensures p in old(availablePorts) && old(port) == Some(p) ==>
        var t := ThrownAt(failure, old(hasReader), old(hasWriter), true);
        !connected && !listening &&
        hasReader == (old(hasReader) && t == 0) &&
        hasWriter == (old(hasWriter) && t <= 1) &&
        port == (if t <= 2 then old(port) else None)
      ensures p !in old(availablePorts) || old(port) != Some(p) ==>
        port == old(port) && hasReader == old(hasReader) && hasWriter == old(hasWriter) &&
        connected == old(connected) && listening == old(listening)
    {
      var index := IndexOf(availablePorts, p);
      if index < 0 {
        return;
      }
      DetachAt(index);
      if port == Some(p) {
        var _ := Disconnect(failure);
      }
    }

    /** The splice and `deviceDetached` notification of the handler above. */
    method DetachAt(index: nat)
      requires index < |availablePorts|
      modifies this`availablePorts, this`notifications
      ensures availablePorts == old(availablePorts)[..index] + old(availablePorts)[index + 1..]
      ensures notifications == old(notifications) + [DeviceDetached(index)]
    {
      availablePorts := availablePorts[..index] + availablePorts[index + 1..];
      notifications := notifications + [DeviceDetached(index)];
    }
  }
}
