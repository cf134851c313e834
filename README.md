# capacitor-usb-serial: a Dafny model of the three adapters' receive paths

The plugin exposes one serial-port API to JavaScript. It has three
implementations, and this project models the part of each that holds
logic:

- **Web** (`dist/plugin.js`, class `UsbSerialWeb`, in `WebSerial.dfy`).
  - `listenForData` turns a stream of decoded text chunks into records. The
    buffer is split on `'\n'`. Non-blank complete lines are emitted trimmed.
    The leftover is kept, or flushed at once when its trim "looks hex".
  - The classifier `isHexData`.
  - The renderer `stringToHex`: pass-through upper-casing, or per-character
    `charCodeAt` hex.
  - `processDataLine`, the `connected`/`listening` flags and their guards, the
    `availablePorts` bookkeeping of the attach/detach handlers, the
    connect-option defaults, and `getDeviceName`.
- **iOS** (`ios/Sources/UsbSerialPlugin/UsbSerial.swift`, class `UsbSerial`, in
  `IosSerial.dfy`).
  - The `readBuffer` byte buffer: appended by every received chunk, drained
    by `read`, emptied by `disconnect`.
  - The `listening` flag, which gates only the `dataReceived` notifications.
  - `%02X` hex and the protocol-string choice in `connect`.
  - The accessory and stream event handlers that disconnect.
- **Android** (`android/.../UsbSerial.java`, class `UsbSerial`, in
  `AndroidSerial.dfy`).
  - `bytesToHex` over Java's signed bytes, the parity `switch` and option
    defaults, and the device and driver loops of `connect` and
    `requestPermission`.
  - The `serialPort`/`ioManager`/`currentDevice` fields with the guards of
    `write` and `startListening`, the private `disconnect`, `onNewData`, and
    the detach broadcast.

`Text.dfy` holds JavaScript's string operations: `\s`, `trim()`,
`split(sep)`, decimal rendering, and `String.contains`. `Hex.dfy` holds byte
hex in `%02X` form, JavaScript's `toString(16)`/`padStart(2, '0')`, and a
parser back from hex. `Results.dfy` holds `Option` and `Result`.

Each adapter object is a class whose fields are the source's fields. The
notifications it sends to listeners are a `notifications` sequence field,
appended in order. Each loop of the source is a `while` or `for` loop proved
against a pure specification function:

- the chunk loop of `listenForData` against `ChunkStep` and `ListenEvents`;
- the line loop against `NonBlankLines`;
- `readData` against `Concat` and `ChunkNotifications`;
- the protocol and device scans against `FirstCompatible`, `FirstDeviceWithId` and `FirstDriverFor`;
- `bytesToHex` against `HexOfBytes`.

The properties the source promises are lemmas about those functions.

These are passed in as parameters:

- everything the platform supplies: the port list, `port.open`'s outcome,
  `EASession`'s success, stream reads, `serialPort.write`'s count, and
  exception messages;
- UTF-8 decoding;
- the clock reading.

Behaviour worth knowing, all modelled as the code has it:

- Web: a hex-looking leftover is flushed at once. So a hex record split
  across two chunks is emitted as two records. `ChunkBoundaryVisibleOnFlush`
  shows this. Without a flush, chunk boundaries are invisible
  (`ChunkBoundaryInvisible`).
- Web: the heuristic calls ordinary words made of `a`-`f` hex, for example
  "face".
- Web: `isHexData`'s regular expression admits white space. It is applied
  after white space is removed, so the white space never matters.
- Web: a zero `baudRate`, `dataBits` or `stopBits` falls back to the default,
  because of `||`. Android uses the zero as given (`DefaultsAgreeExceptZero`).
- iOS: a failed `connect` leaves `accessory` set to the last accessory with
  the requested id (`LastMatching`, `LastMatchingIsLast`), with no session.
- iOS: falling back to the default protocol never opens a session. The
  default contains "com." itself, so it is chosen only when the accessory
  lists no compatible protocol at all (`ProtocolListed`).
- Android: `onNewData` notifies whether or not `startListening` was called.
  `stopListening` changes nothing.
- Android: an `IOException` from `open` or `setParameters` leaves
  `serialPort` set, so the guards of `write` and `startListening` then pass.

## Model

| member | source | states |
|---|---|---|
| Text.RemoveWhitespaceKeeps | dist/plugin.js:290 | `replace(/\s/g, '')` keeps exactly the non-white-space characters: its length is their count, and a character is in the result iff it is in the input and is not white space |
| Text.TrimIsSlice | dist/plugin.js:245-251 | `trim()` returns a slice `s[i..j]` of its input, and everything it cuts off on either side is white space |
| Text.TrimEnds | dist/plugin.js:245-251 | a trimmed string is empty or starts and ends with a non-white-space character |
| Text.TrimEmptyIffBlank | dist/plugin.js:245 | `line.trim()` is falsy (empty) exactly when the line is all white space |
| Text.TrimIdempotent | dist/plugin.js:245-251 | trimming twice equals trimming once |
| Text.TrimKeepsOut | dist/plugin.js:245-251 | trimming never introduces a character (a newline-free line stays newline-free) |
| Text.SplitPiecesFree | dist/plugin.js:242 | no piece of `split('\n')` contains a newline |
| Text.JoinSplit | dist/plugin.js:242 | joining the pieces of `split(sep)` with `sep` gives back the string |
| Text.SplitJoin | dist/plugin.js:242 | splitting a join of separator-free pieces gives back the pieces |
| Text.SplitCount | dist/plugin.js:242 | `split(sep)` yields one more piece than there are separators |
| Text.TerminatedAppend | dist/plugin.js:242-243 | lines each followed by a newline concatenate piecewise |
| Text.DecimalRoundTrip | dist/plugin.js:92 | the decimal rendering of an index in a template string reads back as that index |
| Text.DecimalInjective | dist/plugin.js:92 | different indexes render differently |
| Text.ContainsSubstringAt | ios/Sources/UsbSerialPlugin/UsbSerial.swift:107 | `contains` holds iff the substring occurs at some position |
| Hex.ByteHex | ios/Sources/UsbSerialPlugin/UsbSerial.swift:262 | `%02X` of a byte is two upper-case hex digits whose value is the byte |
| Hex.HexOfBytes | ios/Sources/UsbSerialPlugin/UsbSerial.swift:262 | the joined `%02X` rendering has two characters per byte |
| Hex.HexOfBytesAt | ios/Sources/UsbSerialPlugin/UsbSerial.swift:262 | characters 2i and 2i+1 are the rendering of byte i: order is kept |
| Hex.HexOfBytesDigits | ios/Sources/UsbSerialPlugin/UsbSerial.swift:262 | every character of the rendering is an upper-case hex digit |
| Hex.HexOfBytesAppend | ios/Sources/UsbSerialPlugin/UsbSerial.swift:262 | the rendering of two byte runs is the concatenation of their renderings |
| Hex.HexOfBytesRoundTrip | ios/Sources/UsbSerialPlugin/UsbSerial.swift:262 | parsing the rendering back gives the original bytes |
| Hex.ToStringRadix16 | dist/plugin.js:284 | `toString(16)` yields at least one digit, all hex |
| Hex.AsciiUpperAt | dist/plugin.js:280 | upper-casing keeps the length and changes only the letters a-z, each to its capital |
| Hex.AsciiUpperAppend | dist/plugin.js:283-286 | upper-casing a concatenation upper-cases each part |
| Hex.JsCodeHexOfByte | dist/plugin.js:284-286 | for a code below 256, `toString(16).padStart(2,'0')` upper-cased is exactly `%02X` |
| Hex.JsCodeHexWide | dist/plugin.js:284-286 | for a code of 256 or more it is longer than two digits |
| WebSerial.IsHexDataIff | dist/plugin.js:288-291 | `isHexData(s)` iff every character is a hex digit or white space and there are at least four non-white-space characters |
| WebSerial.IsHexDataNoSpace | dist/plugin.js:288-291 | on a string without white space: `isHexData` iff length at least 4 and all hex digits |
| WebSerial.HexLikeExamples | dist/plugin.js:288-291 | "BEEF" and "face" are hex-like |
| WebSerial.SpacedHexExample | dist/plugin.js:288-291 | "de ad" is hex-like: white space is ignored |
| WebSerial.TextExamples | dist/plugin.js:288-291 | "abc" (too short), "12G4" (a non-hex letter) and "" are not hex-like |
| WebSerial.StringToHexPassThrough | dist/plugin.js:279-281 | hex-like input comes back with the same length, each a-f raised and every other character, white space included, unchanged |
| WebSerial.StringToHexPassThroughExamples | dist/plugin.js:279-281 | "de ad" renders as "DE AD" |
| WebSerial.CodesHexUpper | dist/plugin.js:283-286 | upper-casing the joined per-character hex equals joining each character's upper-cased hex |
| WebSerial.EncodeLatin1 | dist/plugin.js:283-286 | when every code is below 256 the per-character hex is the `%02X` rendering of the codes |
| WebSerial.StringToHexEncodes | dist/plugin.js:277-287 | non-hex-like input with codes below 256 renders as exactly 2·n upper-case digits that parse back to its codes |
| WebSerial.JsCodeHexLength | dist/plugin.js:284 | one character renders as at least two digits, exactly two iff its code is below 256 |
| WebSerial.EncodeCodesLength | dist/plugin.js:283-286 | the encoding has at least 2·n digits, exactly 2·n iff every code is below 256 |
| WebSerial.StringToHexText | dist/plugin.js:283-286 | "hi" renders as "6869" |
| WebSerial.LinesReconstruct | dist/plugin.js:242-243 | the buffer is its complete lines, each followed by a newline, then the kept last piece; neither holds a newline |
| WebSerial.LinesUnique | dist/plugin.js:242-243 | that decomposition is unique: newline-terminated lines and a newline-free rest are split back into themselves |
| WebSerial.LinesOfAppend | dist/plugin.js:240-243 | splitting a longer stream gives the earlier complete lines, then those completed by the kept piece and the new text |
| WebSerial.NonBlankLinesAppend | dist/plugin.js:244-248 | emitting lines distributes over concatenation of line runs |
| WebSerial.NonBlankLinesSnoc | dist/plugin.js:244-248 | one more line adds its trim when non-blank and nothing otherwise |
| WebSerial.NonBlankLinesWellFormed | dist/plugin.js:244-248 | every emitted record is non-empty, trimmed and newline-free |
| WebSerial.BlankLinesDropped | dist/plugin.js:244-248 | white-space-only lines emit nothing |
| WebSerial.ChunkStepBuffer | dist/plugin.js:240-253 | after a chunk the buffer holds no newline and is empty or not hex-like |
| WebSerial.ChunkStepReconstruct | dist/plugin.js:240-253 | without a flush, old buffer + chunk equals the complete lines each followed by a newline, then the new buffer; with a flush the buffer is empty and the last record is the trimmed leftover |
| WebSerial.ChunkStepEvents | dist/plugin.js:240-253 | the `dataReceived` notifications of a chunk are those of its non-blank complete lines, then one for the flushed leftover if any |
| WebSerial.ChunkStepRecords | dist/plugin.js:240-253 | the records of a chunk are the non-blank complete lines trimmed, in order, then the flushed leftover if any; each is well formed |
| WebSerial.ChunkStepNoNewline | dist/plugin.js:240-253 | a chunk without a newline that does not make the buffer hex-like emits nothing and is kept |
| WebSerial.ChunkStepOf | dist/plugin.js:240-253 | the step on any stream given as lines plus rest: those lines' non-blank trims, then the flush of the rest or the rest kept |
| WebSerial.SingleLine | dist/plugin.js:240-248 | a chunk completing one already-trimmed line emits exactly that line and leaves the buffer empty |
| WebSerial.HexFragment | dist/plugin.js:250-253 | a newline-free run of at least four hex digits is flushed at once as one record |
| WebSerial.SplitLineReassembled | dist/plugin.js:240-253 | a line split across two chunks (no flush in between) is emitted once, whole, when its newline arrives |
| WebSerial.ChunkBoundaryInvisible | dist/plugin.js:240-253 | when the first chunk causes no flush, two chunks emit the same records and leave the same buffer as their concatenation |
| WebSerial.ChunkBoundaryVisibleOnFlush | dist/plugin.js:250-253 | "DEAD" is flushed at once, so "DEAD" then "BEEF\n" emit two records where "DEADBEEF\n" emits one |
| WebSerial.ChunkStepEmpty | dist/plugin.js:236-253 | an empty chunk after any step emits nothing and keeps the buffer |
| WebSerial.ListenStopsAtEnd | dist/plugin.js:231-235 | nothing is emitted after the stream reports `done`, whatever would have followed |
| WebSerial.ListenEventsShape | dist/plugin.js:226-264 | every data record the listen loop emits is non-empty, trimmed and newline-free |
| WebSerial.DataEventsEach | dist/plugin.js:244-248 | each emitted line becomes one `dataReceived` notification: as many notifications as lines, notification i carrying line i and the clock reading |
| WebSerial.DataEventsShape | dist/plugin.js:244-253 | when every record is well formed, every notification of a chunk is a `dataReceived` with the chunk's clock reading and a well-formed line |
| WebSerial.HexRecordPayload | dist/plugin.js:240-291 | a chunk of one line of four or more upper-case hex digits (such as "12345678") and its newline emits exactly that line, and its event carries it as both `data` and `hexData`, with device id 0 |
| WebSerial.OpenOptionsDefaults | dist/plugin.js:108-115 | missing options give 115200/8/1/"none"; 0 or "" count as missing; other values are used; buffer size 32768 and flow control "none" always |
| WebSerial.DeviceNameIndex | dist/plugin.js:84-93 | the device name starts with the vendor name and its "(Port i)" suffix reads back as the index |
| WebSerial.VendorNames | dist/plugin.js:84-93 | the vendor name is known exactly for the four listed vendor ids; "Espressif ESP32 (Port 2)" for 0x303A at index 2 |
| WebSerial.Utf16Length | dist/plugin.js:187 | `data.length` is between n and 2n for n characters, equal to n iff none is outside the basic plane |
| WebSerial.IndexOf | dist/plugin.js:328 | `indexOf` is -1 iff the port is absent, and otherwise the first position holding it |
| WebSerial.UsbSerialWeb.constructor | dist/plugin.js:9-25 | all fields cleared; an error notification when Web Serial is missing |
| WebSerial.UsbSerialWeb.NotifyError | dist/plugin.js:347-350 | one `error` notification with the message |
| WebSerial.UsbSerialWeb.ListDevices | dist/plugin.js:58-83 | rejects without Web Serial; otherwise replaces `availablePorts` by the ports and describes port i with id i, its ids or 0, and its name |
| WebSerial.UsbSerialWeb.Connect | dist/plugin.js:94-148 | keeps an existing port or takes `ports[deviceId]`; no port, or a failing `open`, rejects with the error notifications and `connected` false, reader and writer untouched; otherwise connected with reader and writer, one state notification |
| WebSerial.UsbSerialWeb.Disconnect | dist/plugin.js:149-177 | clears `listening` and `connected` first; reader, writer and port are released in order until one throws; always resolves and notifies disconnected |
| WebSerial.UsbSerialWeb.Write | dist/plugin.js:178-194 | rejects with an error notification unless writer and `connected`; a throwing write rejects; otherwise reports `data.length` |
| WebSerial.UsbSerialWeb.Read | dist/plugin.js:195-213 | rejects unless reader and `connected`; `done` rejects "Stream closed"; otherwise returns the chunk |
| WebSerial.UsbSerialWeb.StartListening | dist/plugin.js:214-221 | rejects when not connected, otherwise sets `listening` |
| WebSerial.UsbSerialWeb.StopListening | dist/plugin.js:222-225 | clears `listening` |
| WebSerial.UsbSerialWeb.ProcessDataLine | dist/plugin.js:265-276 | one `dataReceived` notification for the line |
| WebSerial.UsbSerialWeb.ProcessLines | dist/plugin.js:244-248 | the line loop notifies exactly the non-blank complete lines, trimmed, in order |
| WebSerial.UsbSerialWeb.FrameChunk | dist/plugin.js:240-253 | one pass of the chunk loop notifies the step's records and returns its buffer |
| WebSerial.UsbSerialWeb.ListenRead | dist/plugin.js:230-262 | one read of the loop: `done` stops silently, a read error is notified and stops, a chunk is framed and the loop goes on, each as `ListenEvents` unfolds |
| WebSerial.UsbSerialWeb.ListenForData | dist/plugin.js:226-264 | the whole loop notifies what `ListenEvents` specifies for the reads, and nothing when not listening, connected and reading |
| WebSerial.UsbSerialWeb.OnPortConnected | dist/plugin.js:298-323 | the port is appended and announced with id = the old length of `availablePorts`, which indexes it |
| WebSerial.UsbSerialWeb.OnPortDisconnected | dist/plugin.js:324-345 | an unknown port changes nothing at all; a known one is spliced out at its first index and that index announced; only when it is the current port is the adapter disconnected (flags cleared, reader, writer and port released as `disconnect` does); otherwise port, reader, writer and flags are untouched |
| WebSerial.UsbSerialWeb.DetachAt | dist/plugin.js:330-334 | the port at the index is spliced out and its index announced as detached |
| IosSerial.DefaultCompatible | ios/Sources/UsbSerialPlugin/UsbSerial.swift:105-114 | the default protocol string itself contains "com." |
| IosSerial.FirstCompatible | ios/Sources/UsbSerialPlugin/UsbSerial.swift:105-111 | the chosen protocol is a listed one containing "serial" or "com.", and none is chosen only when no listed one does |
| IosSerial.FirstCompatibleIsFirst | ios/Sources/UsbSerialPlugin/UsbSerial.swift:105-111 | the chosen protocol is the first compatible one in list order |
| IosSerial.ProtocolListed | ios/Sources/UsbSerialPlugin/UsbSerial.swift:114-116 | the protocol to use is listed by the accessory iff some listed protocol is compatible |
| IosSerial.FindProtocol | ios/Sources/UsbSerialPlugin/UsbSerial.swift:105-111 | the scan with `break` finds exactly `FirstCompatible` |
| IosSerial.FirstOpening | ios/Sources/UsbSerialPlugin/UsbSerial.swift:100-133 | the accessory `connect` succeeds on is the first that matches the id, lists its chosen protocol and gets a session; -1 when there is none |
| IosSerial.LastMatching | ios/Sources/UsbSerialPlugin/UsbSerial.swift:100-102 | the accessory left stored after a failure has the id and is listed, or is none when no accessory has it |
| IosSerial.LastMatchingIsLast | ios/Sources/UsbSerialPlugin/UsbSerial.swift:100-102 | it is the last accessory with the id: any listed accessory with the id and no later one with it is the one stored |
| IosSerial.ListenedHexIsBufferHex | ios/Sources/UsbSerialPlugin/UsbSerial.swift:310-324 | the hex of the per-chunk notifications, concatenated, equals the hex of all the bytes, which is what `read` returns for them |
| IosSerial.UsbSerialIos.constructor | ios/Sources/UsbSerialPlugin/UsbSerial.swift:11-15 | no session or accessory, not listening, empty buffer |
| IosSerial.UsbSerialIos.Disconnect | ios/Sources/UsbSerialPlugin/UsbSerial.swift:195-218 | not listening, session, accessory and connection dropped, buffer empty, no notification |
| IosSerial.UsbSerialIos.Connect | ios/Sources/UsbSerialPlugin/UsbSerial.swift:88-138 | without an id, the network path: the network connection is created and nothing else changes; otherwise disconnect first, then connect to the first accessory that opens with one state notification, or reject "Failed to connect to accessory" |
| IosSerial.UsbSerialIos.TryAccessory | ios/Sources/UsbSerialPlugin/UsbSerial.swift:101-133 | a matching accessory is stored; a session opens iff its chosen protocol is listed and `EASession` succeeds |
| IosSerial.UsbSerialIos.Write | ios/Sources/UsbSerialPlugin/UsbSerial.swift:220-252 | no data rejects first; a session reports the stream's count; else a connection sends over the network; else rejects "Not connected" |
| IosSerial.UsbSerialIos.Read | ios/Sources/UsbSerialPlugin/UsbSerial.swift:254-271 | an empty buffer gives "" and ""; otherwise the text and `%02X` hex of the whole buffer; the buffer is empty afterwards |
| IosSerial.UsbSerialIos.StartListening | ios/Sources/UsbSerialPlugin/UsbSerial.swift:273-276 | sets the flag, with no connection check |
| IosSerial.UsbSerialIos.StopListening | ios/Sources/UsbSerialPlugin/UsbSerial.swift:278-281 | clears the flag |
| IosSerial.UsbSerialIos.HandleReceivedData | ios/Sources/UsbSerialPlugin/UsbSerial.swift:310-326 | the chunk is always appended to the buffer; one notification with that chunk's text and hex, the clock and the accessory id or 0, only while listening |
| IosSerial.UsbSerialIos.ReadData | ios/Sources/UsbSerialPlugin/UsbSerial.swift:389-401 | the buffer gains every read's bytes in order; while listening, one notification per non-empty read |
| IosSerial.UsbSerialIos.ReadOne | ios/Sources/UsbSerialPlugin/UsbSerial.swift:394-399 | one pass of the read loop handles a non-empty read and skips an empty one |
| IosSerial.UsbSerialIos.AccessoryDidConnect | ios/Sources/UsbSerialPlugin/UsbSerial.swift:330-341 | one `deviceAttached` with vendor and product id 0 |
| IosSerial.UsbSerialIos.AccessoryDidDisconnect | ios/Sources/UsbSerialPlugin/UsbSerial.swift:343-357 | always `deviceDetached`; for the stored accessory also a disconnect (session, accessory, network connection, listening and buffer dropped) and a state notification; otherwise nothing else changes |
| IosSerial.UsbSerialIos.StreamErrorOccurred | ios/Sources/UsbSerialPlugin/UsbSerial.swift:375-378 | disconnect (session, accessory, network connection, listening and buffer dropped), then a state notification and "Stream error occurred" |
| IosSerial.UsbSerialIos.StreamEndEncountered | ios/Sources/UsbSerialPlugin/UsbSerial.swift:380-382 | disconnect (session, accessory, network connection, listening and buffer dropped), then a state notification |
| AndroidSerial.Unsigned | android/src/main/java/dev/emmanuelrobinson/capacitorusbserial/UsbSerial.java:327 | `%02X` of a signed byte prints the unsigned value with the same bit pattern |
| AndroidSerial.BytesToHex | android/src/main/java/dev/emmanuelrobinson/capacitorusbserial/UsbSerial.java:324-330 | the loop appends exactly the `%02X` rendering of the unsigned bytes |
| AndroidSerial.BytesToHexFaithful | android/src/main/java/dev/emmanuelrobinson/capacitorusbserial/UsbSerial.java:324-330 | 2·n upper-case digits, byte i at positions 2i and 2i+1, and parsing back recovers the signed bytes |
| AndroidSerial.SignInFirstDigit | android/src/main/java/dev/emmanuelrobinson/capacitorusbserial/UsbSerial.java:327 | a byte is negative iff its first digit is 8-F |
| AndroidSerial.ParityOfNames | android/src/main/java/dev/emmanuelrobinson/capacitorusbserial/UsbSerial.java:173-181 | each parity is selected by its name; only "odd", "even", "mark" and "space" select anything but none |
| AndroidSerial.LineSettingsFor | android/src/main/java/dev/emmanuelrobinson/capacitorusbserial/UsbSerial.java:169-181 | missing options default to 115200, 8, `STOPBITS_1`, "none"; given values, zero included, are used |
| AndroidSerial.DefaultsAgreeExceptZero | android/src/main/java/dev/emmanuelrobinson/capacitorusbserial/UsbSerial.java:169-172 | the Android and web numeric settings agree iff the option is not an explicit 0 |
| AndroidSerial.FirstDeviceWithId | android/src/main/java/dev/emmanuelrobinson/capacitorusbserial/UsbSerial.java:184-189 | the device found has the id and is listed; none is found only when no device has the id |
| AndroidSerial.FirstDeviceWithIdIsFirst | android/src/main/java/dev/emmanuelrobinson/capacitorusbserial/UsbSerial.java:184-189 | the device found is the first with the id |
| AndroidSerial.FindDevice | android/src/main/java/dev/emmanuelrobinson/capacitorusbserial/UsbSerial.java:184-189 | the scan with `break` finds exactly `FirstDeviceWithId` |
| AndroidSerial.FirstDriverFor | android/src/main/java/dev/emmanuelrobinson/capacitorusbserial/UsbSerial.java:199-205 | the index of the first driver for the id, or -1 when no driver is for it |
| AndroidSerial.FindDriver | android/src/main/java/dev/emmanuelrobinson/capacitorusbserial/UsbSerial.java:199-205 | the scan with `break` finds exactly that driver |
| AndroidSerial.ChosenDeviceNone | android/src/main/java/dev/emmanuelrobinson/capacitorusbserial/UsbSerial.java:99-116 | no device is chosen iff none has the given id, or, without an id, the list is empty; a chosen device is listed |
| AndroidSerial.UsbSerialAndroid.constructor | android/src/main/java/dev/emmanuelrobinson/capacitorusbserial/UsbSerial.java:38-41 | no port, I/O manager or device |
| AndroidSerial.UsbSerialAndroid.RequestPermission | android/src/main/java/dev/emmanuelrobinson/capacitorusbserial/UsbSerial.java:95-133 | chooses the matching or first device; rejects "No USB device found" without one; otherwise reports granted |
| AndroidSerial.UsbSerialAndroid.Connect | android/src/main/java/dev/emmanuelrobinson/capacitorusbserial/UsbSerial.java:162-240 | rejects in order: no id, device not found, no driver, cannot open, each leaving port, manager, device and notifications as they were; an I/O failure leaves the port set; success sets port, settings, manager and device and notifies |
| AndroidSerial.UsbSerialAndroid.Disconnect | android/src/main/java/dev/emmanuelrobinson/capacitorusbserial/UsbSerial.java:249-265 | manager, port and device are always cleared |
| AndroidSerial.UsbSerialAndroid.Write | android/src/main/java/dev/emmanuelrobinson/capacitorusbserial/UsbSerial.java:267-289 | no data rejects first, then no port; an I/O failure rejects; otherwise the port's count |
| AndroidSerial.UsbSerialAndroid.StartListening | android/src/main/java/dev/emmanuelrobinson/capacitorusbserial/UsbSerial.java:291-297 | rejects "Not connected" iff there is no port |
| AndroidSerial.UsbSerialAndroid.StopListening | android/src/main/java/dev/emmanuelrobinson/capacitorusbserial/UsbSerial.java:299-301 | always resolves |
| AndroidSerial.UsbSerialAndroid.OnNewData | android/src/main/java/dev/emmanuelrobinson/capacitorusbserial/UsbSerial.java:304-317 | every chunk is notified with its text, `bytesToHex`, the clock, and the device id only when a device is current |
| AndroidSerial.UsbSerialAndroid.OnDeviceDetached | android/src/main/java/dev/emmanuelrobinson/capacitorusbserial/UsbSerial.java:58-66 | only the current device disconnects and is announced; any other changes nothing |

## Left out

- Web Serial, External Accessory, `NWConnection` and Android `UsbManager`/prober
  calls are foreign. Their results are parameters: the port list, `open`'s
  outcome, `EASession`'s success, stream reads, write counts and exception
  messages.
- Concurrency and suspension: `await`, run loops, dispatch queues, and the
  `SerialInputOutputManager` executor thread. Each listen loop is modelled
  over a given sequence of reads, and `listening` cannot change during it.
- WebSerial.UsbSerialWeb.ListenForData: a read error is always reported.
  The source reports it only if `listening` is still true, which can differ
  only after an interleaved `stopListening`, and interleavings are not
  modelled.
- Timestamps (`Date.now()`, `Date().timeIntervalSince1970 * 1000`,
  `System.currentTimeMillis()`) are parameters. On the web one clock reading
  is used per chunk for all records of that chunk. On iOS one is used per
  stream read.
- Text decoding and encoding: `TextDecoderStream`, `TextEncoderStream`, and
  UTF-8 decoding on iOS and Android. Decoding is a function parameter, and
  chunks on the web arrive already decoded.
- `toUpperCase()` is modelled on the characters it meets in `stringToHex`:
  hex digits and white space, or the output of `toString(16)`. Upper-casing
  other letters is not part of this model.
- Web `requestPermission` (`dist/plugin.js:26-57`) is not part of this model.
  Its choice of port is made by the browser's port picker, which is a
  foreign call.
- Web: ports are compared by a `handle` that stands for object identity.
- Web `connect`: `deviceId` is an integer. An undefined id and a throwing
  `getPorts()` are not modelled.
- Web: a `dataReceived` notification records the line and the clock reading.
  Its `DataReceivedEvent` payload is computed by `Payload`, with
  `stringToHex` for `hexData` and device id 0. `HexRecordPayload` relates
  the two for a hex record, end to end.
- Web: the ESP32 vendor check in the attach handler has no effect and is not
  modelled. The listeners' registration, and its absence without Web Serial,
  are not modelled either.
- iOS: `listDevices`, `requestPermission` (always granted),
  `startReceivingNetworkData`, `setupStreams` and `cleanup` are not part of
  this model. They are platform calls without logic of their own.
- iOS `connectViaNetwork`: only its synchronous effect, creating the
  `NWConnection`, is modelled (in `Connect`). Its asynchronous state handler
  and the network receive loop are not part of this model.
- iOS: the asynchronous network write is not part of this model.
  `write` reports only that the network path was taken.
- iOS: a session is assumed to have an output stream.
- iOS: each read delivers at most 1024 bytes. The bound plays no role in the
  buffer logic, so it is not modelled.
- Android: `listDevices`, `initialize`, `cleanup`, the permission broadcast
  and `onRunError` are not part of this model. They are platform calls and
  logging.
- Android `connect`: `driver.getPorts().get(0)` is assumed to exist. Exceptions
  other than `IOException` are not modelled. The parity and stop-bit constants
  are those of the usb-serial-for-android library, which is not part of this
  model.
- Android: the asynchronous permission request is not part of this model.
  `requestPermission` reports granted as the source does.
- The plugin classes (`UsbSerialPlugin.java`, `UsbSerialPlugin.swift`) only
  delegate and are not part of this model. So are `src/web.ts` (an older web
  adapter without line framing) and the type definitions.
- The concrete example of "foo\nbar\nba" followed by "z\n" is covered by the
  general lemmas `SplitLineReassembled`, `ChunkStepOf` and
  `ChunkBoundaryInvisible`, not by a literal instance.
