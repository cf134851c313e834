/** The iOS adapter of the plugin (`UsbSerial` in
    ios/Sources/UsbSerialPlugin/UsbSerial.swift): protocol selection for an
    External Accessory session, the byte buffer filled by incoming data and
    drained by `read`, and the `listening` flag that gates notifications.
    The accessory list, `EASession` creation, stream reads and UTF-8
    decoding are parameters. */
module IosSerial {
  import opened Results
  import opened Text
  import opened Hex

  // =====================================================================
  // Protocol selection in `connect`.

  /** The protocol `connect` falls back to (the `protocolString` constant). */
  const DefaultProtocol: String := "com.yourcompany.serial"

  /** A protocol string the adapter accepts: it contains "serial" or "com.". */
  predicate Compatible(proto: String) {
    ContainsSubstring(proto, "serial") || ContainsSubstring(proto, "com.")
  }

  lemma DefaultCompatible()
    ensures Compatible(DefaultProtocol)
  {
    assert "com." <= DefaultProtocol;
  }

  /** The first compatible protocol string, if any. */
  function FirstCompatible(ps: seq<String>): (r: Option<String>)
    ensures r.Some? ==> r.value in ps && Compatible(r.value)
    ensures r.None? ==> forall p | p in ps :: !Compatible(p)
  {
    if ps == [] then None
    else if Compatible(ps[0]) then Some(ps[0])
    else
      var r := FirstCompatible(ps[1..]);
      assert forall p | p in ps :: p == ps[0] || p in ps[1..];
      r
  }

  /** ... and it is the first one: every earlier string is incompatible. */
  lemma {:induction false} FirstCompatibleIsFirst(ps: seq<String>, i: nat)
    requires i < |ps| && Compatible(ps[i])
    requires forall j :: 0 <= j < i ==> !Compatible(ps[j])
    ensures FirstCompatible(ps) == Some(ps[i])
  {
    if i > 0 {
      FirstCompatibleIsFirst(ps[1..], i - 1);
    }
  }

  /** `foundProtocol ?? protocolString`. */
  function ProtocolToUse(ps: seq<String>): String {
    FirstCompatible(ps).GetOr(DefaultProtocol)
  }

  /** The chosen protocol is one the accessory lists exactly when the
      accessory lists any compatible protocol: the default is itself
      compatible, so falling back to it never finds it listed. */
  lemma ProtocolListed(ps: seq<String>)
    ensures ProtocolToUse(ps) in ps <==> exists p :: p in ps && Compatible(p)
  {
    DefaultCompatible();
  }

  /** The loop of lines 105-111: scan the protocol strings in order and
      stop at the first compatible one. */
  method FindProtocol(protocolStrings: seq<String>) returns (found: Option<String>)
    ensures found == FirstCompatible(protocolStrings)
  {
    found := None;
    for i := 0 to |protocolStrings|
      invariant FirstCompatible(protocolStrings) == FirstCompatible(protocolStrings[i..])
      invariant found.None?
    {
      assert protocolStrings[i..][0] == protocolStrings[i];
      if ContainsSubstring(protocolStrings[i], "serial") || ContainsSubstring(protocolStrings[i], "com.") {
        found := Some(protocolStrings[i]);
        break;
      }
      assert protocolStrings[i..][1..] == protocolStrings[i + 1..];
    }
  }

  // =====================================================================
  // Entities.

  /** What the model uses of an `EAAccessory`. */
  datatype Accessory = Accessory(connectionID: int, name: String, manufacturer: String,
                                 serialNumber: String, protocolStrings: seq<String>)

  /** An open `EASession`: the accessory it belongs to and its protocol. */
  datatype Session = Session(accessoryId: int, protocolName: String)

  /** Everything the adapter passes to `notifyListeners`, by event name. */
  datatype Notification =
    | DataReceived(data: String, hexData: String, timestamp: int, deviceId: int)
    | ConnectionStateChanged(connected: bool, connectedId: Option<int>)
    | DeviceAttached(attachedId: int, vendorId: int, productId: int, deviceName: String,
                     manufacturerName: String, serialNumber: String)
    | DeviceDetached(detachedId: int)
    | Error(message: String)

  /** The outcome of `connect`. */
  datatype ConnectResult = Connected(deviceId: int) | Failed(message: String) | NetworkRequested

  /** The outcome of `write`. */
  datatype WriteResult = Written(bytesWritten: int) | Rejected(message: String) | SentOverNetwork

  /** A matching accessory on which `connect` opens a session: the chosen
      protocol is listed and `EASession` returns a session for it. */
  predicate Opens(a: Accessory, id: int, openSession: (Accessory, String) -> bool) {
    a.connectionID == id && ProtocolToUse(a.protocolStrings) in a.protocolStrings
    && openSession(a, ProtocolToUse(a.protocolStrings))
  }

  /** The index of the first accessory that opens, or -1. */
  function FirstOpening(accs: seq<Accessory>, id: int, openSession: (Accessory, String) -> bool): (k: int)
    ensures -1 <= k < |accs|
    ensures k >= 0 ==> Opens(accs[k], id, openSession)
    ensures forall j :: 0 <= j < |accs| && (k == -1 || j < k) ==> !Opens(accs[j], id, openSession)
  {
    if accs == [] then -1
    else if Opens(accs[0], id, openSession) then 0
    else
      var k := FirstOpening(accs[1..], id, openSession);
      assert forall j :: 1 <= j < |accs| ==> accs[j] == accs[1..][j - 1];
      if k == -1 then -1 else k + 1
  }

  /** An accessory that opens, with none before it that does, is the one
      `FirstOpening` finds. */
  lemma FirstOpeningAt(accs: seq<Accessory>, id: int, openSession: (Accessory, String) -> bool, i: nat)
    requires i < |accs| && Opens(accs[i], id, openSession)
    requires forall j :: 0 <= j < i ==> !Opens(accs[j], id, openSession)
    ensures FirstOpening(accs, id, openSession) == i
  {
  }

  /** The last accessory with the requested id: `self.accessory` after a
      failed `connect`, since every match is stored before its protocol is
      tried. */
  function LastMatching(accs: seq<Accessory>, id: int): (r: Option<Accessory>)
    ensures r.Some? ==> r.value in accs && r.value.connectionID == id
    ensures r.None? ==> forall a | a in accs :: a.connectionID != id
  {
    if accs == [] then None
    else if accs[|accs| - 1].connectionID == id then Some(accs[|accs| - 1])
    else
      var r := LastMatching(accs[..|accs| - 1], id);
      assert forall a | a in accs :: a == accs[|accs| - 1] || a in accs[..|accs| - 1];
      r
  }

  /** ... and it is the last one: no later accessory has the id. */
  lemma {:induction false} LastMatchingIsLast(accs: seq<Accessory>, id: int, k: nat)
    requires k < |accs| && accs[k].connectionID == id
    requires forall j :: k < j < |accs| ==> accs[j].connectionID != id
    ensures LastMatching(accs, id) == Some(accs[k])
  {
    if k < |accs| - 1 {
      var init := accs[..|accs| - 1];
      assert forall j :: k < j < |init| ==> init[j] == accs[j];
      LastMatchingIsLast(init, id, k);
    }
  }

  /** The `dataReceived` notification for one chunk: its text, the `%02X`
      hex of that chunk alone, the clock reading, and the connected
      accessory's id or 0. */
  function ChunkNotification(chunk: seq<Byte>, now: int, accessory: Option<Accessory>,
                             utf8: seq<Byte> -> Option<String>): Notification {
    DataReceived(utf8(chunk).GetOr([]), HexOfBytes(chunk), now,
                 if accessory.Some? then accessory.value.connectionID else 0)
  }

  /** One successful `inputStream.read`: the bytes it delivered (none
      when it returned 0 or less) and the clock reading when they are
      handled. */
  datatype StreamRead = StreamRead(bytes: seq<Byte>, at: int)

  /** All bytes of a run of reads, in order. */
  function Concat(input: seq<StreamRead>): seq<Byte> {
    if input == [] then [] else input[0].bytes + Concat(input[1..])
  }

  /** The notifications for a run of reads while listening: one per
      non-empty read, in order. */
  function ChunkNotifications(input: seq<StreamRead>, accessory: Option<Accessory>,
                              utf8: seq<Byte> -> Option<String>): seq<Notification> {
    if input == [] then []
    else (if input[0].bytes == [] then [] else [ChunkNotification(input[0].bytes, input[0].at, accessory, utf8)])
         + ChunkNotifications(input[1..], accessory, utf8)
  }

  /** The hex digits carried by a run of notifications, concatenated. */
  function HexStream(ns: seq<Notification>): String {
    if ns == [] then []
    else (if ns[0].DataReceived? then ns[0].hexData else []) + HexStream(ns[1..])
  }

  lemma {:induction false} HexStreamAppend(a: seq<Notification>, b: seq<Notification>)
    ensures HexStream(a + b) == HexStream(a) + HexStream(b)
  {
    if a == [] {
      assert a + b == b;
    } else {
      assert (a + b)[0] == a[0];
      assert (a + b)[1..] == a[1..] + b;
      HexStreamAppend(a[1..], b);
    }
  }

  /** What listeners see and what `read` returns agree: the hex of the
      per-chunk notifications, concatenated, is the hex of all the bytes
      the reads delivered. */
  lemma {:induction false} ListenedHexIsBufferHex(input: seq<StreamRead>, accessory: Option<Accessory>,
                                                  utf8: seq<Byte> -> Option<String>)
    ensures HexStream(ChunkNotifications(input, accessory, utf8)) == HexOfBytes(Concat(input))
  {
    if input != [] {
      var r := input[0];
      ListenedHexIsBufferHex(input[1..], accessory, utf8);
      var head := if r.bytes == [] then [] else [ChunkNotification(r.bytes, r.at, accessory, utf8)];
      HexStreamAppend(head, ChunkNotifications(input[1..], accessory, utf8));
      HexOfBytesAppend(r.bytes, Concat(input[1..]));
      if r.bytes != [] {
        assert HexStream(head) == HexOfBytes(r.bytes) + HexStream([]);
      }
    }
  }

  /** One read of `readData`, peeled off the front of the remaining reads. */
  lemma ReadStep(input: seq<StreamRead>, i: nat, accessory: Option<Accessory>,
                 utf8: seq<Byte> -> Option<String>)
    requires i < |input|
    ensures Concat(input[i..]) == input[i].bytes + Concat(input[i + 1..])
    ensures ChunkNotifications(input[i..], accessory, utf8)
         == (if input[i].bytes == [] then [] else [ChunkNotification(input[i].bytes, input[i].at, accessory, utf8)])
            + ChunkNotifications(input[i + 1..], accessory, utf8)
  {
    assert input[i..][0] == input[i] && input[i..][1..] == input[i + 1..];
  }

  // =====================================================================
  // The adapter object.

  class UsbSerialIos {
    var session: Option<Session>
    var accessory: Option<Accessory>
    /** Whether an `NWConnection` exists (the network path). */
    var hasConnection: bool
    var listening: bool
    var readBuffer: seq<Byte>
    /** Every notification sent to listeners, oldest first. */
    var notifications: seq<Notification>

    /** A session belongs to the stored accessory and uses one of its
        protocols. Methods that leave `session` and `accessory` alone keep
        it by framing. */
    ghost predicate Valid()
      reads this`session, this`accessory
    {
      session.Some? ==>
        accessory.Some? && session.value.accessoryId == accessory.value.connectionID
        && session.value.protocolName in accessory.value.protocolStrings
    }

    constructor ()
      ensures Valid()
      ensures session == None && accessory == None && !hasConnection && !listening
      ensures readBuffer == [] && notifications == []
    {
      session := None;
      accessory := None;
      hasConnection := false;
      listening := false;
      readBuffer := [];
      notifications := [];
    }

    /** The private `disconnect`: everything dropped, the buffer emptied. */
    method Disconnect()
      modifies this
      ensures Valid()
      ensures !listening && session == None && accessory == None && !hasConnection && readBuffer == []
      ensures notifications == old(notifications)
    {
      listening := false;
      session := None;
      accessory := None;
      hasConnection := false;
      readBuffer := [];
    }

    /** `connect`. `accessories` is `connectedAccessories`, and
        `openSession(a, p)` says whether `EASession(accessory: a,
        forProtocol: p)` returns a session. Without a device id the call
        goes to `connectViaNetwork`, which creates the `NWConnection` at
        once; its asynchronous state handler is not modelled. */
    method Connect(deviceId: Option<int>, accessories: seq<Accessory>,
                   openSession: (Accessory, String) -> bool) returns (r: ConnectResult)
      requires Valid()
      modifies this
      ensures Valid()
      ensures deviceId.None? ==>
        r == NetworkRequested && session == old(session) && accessory == old(accessory) &&
        hasConnection && listening == old(listening) &&
        readBuffer == old(readBuffer) && notifications == old(notifications)
      ensures deviceId.Some? ==> !listening && !hasConnection && readBuffer == []
      ensures deviceId.Some? && FirstOpening(accessories, deviceId.value, openSession) >= 0 ==>
        var a := accessories[FirstOpening(accessories, deviceId.value, openSession)];
        r == Connected(deviceId.value) && accessory == Some(a) &&
        session == Some(Session(deviceId.value, ProtocolToUse(a.protocolStrings))) &&
        notifications == old(notifications) + [ConnectionStateChanged(true, deviceId)]
      ensures deviceId.Some? && FirstOpening(accessories, deviceId.value, openSession) == -1 ==>
        r == Failed("Failed to connect to accessory") && session == None &&
        accessory == LastMatching(accessories, deviceId.value) && notifications == old(notifications)
    {
      if deviceId.None? {
        hasConnection := true;
        return NetworkRequested;
      }
      var id := deviceId.value;
      Disconnect();
      for i := 0 to |accessories|
        invariant session == None && !listening && !hasConnection && readBuffer == []
        invariant accessory == LastMatching(accessories[..i], id)
        invariant forall j :: 0 <= j < i ==> !Opens(accessories[j], id, openSession)
        invariant notifications == old(notifications)
      {
        var a := accessories[i];
        assert accessories[..i + 1][..i] == accessories[..i];
        if a.connectionID == id {
          var sessionOpen := TryAccessory(a, openSession);
          if sessionOpen {
            FirstOpeningAt(accessories, id, openSession, i);
            return Connected(id);
          }
        }
      }
      assert accessories[..|accessories|] == accessories;
      r := Failed("Failed to connect to accessory");
    }

    /** The body of the accessory loop in `connect` for a matching
        accessory: store it, choose its protocol, and open a session when
        the protocol is listed and `EASession` succeeds. */
    method TryAccessory(a: Accessory, openSession: (Accessory, String) -> bool) returns (sessionOpen: bool)
      requires session == None
      modifies this`accessory, this`session, this`notifications
      ensures accessory == Some(a)
      ensures sessionOpen == Opens(a, a.connectionID, openSession)
      ensures sessionOpen ==>
        session == Some(Session(a.connectionID, ProtocolToUse(a.protocolStrings))) &&
        notifications == old(notifications) + [ConnectionStateChanged(true, Some(a.connectionID))]
      ensures !sessionOpen ==> session == None && notifications == old(notifications)
    {
      accessory := Some(a);
      var found := FindProtocol(a.protocolStrings);
      var protocolToUse := found.GetOr(DefaultProtocol);
      if protocolToUse in a.protocolStrings {
        if openSession(a, protocolToUse) {
          session := Some(Session(a.connectionID, protocolToUse));
          notifications := notifications + [ConnectionStateChanged(true, Some(a.connectionID))];
          return true;
        }
      }
      return false;
    }

    /** `write`. `streamWrite` is what `outputStream.write` returns. A
        session is taken to have an output stream. The network path
        completes asynchronously and is not modelled beyond its choice. */
    method Write(data: Option<String>, streamWrite: int) returns (r: WriteResult)
      ensures data.None? ==> r == Rejected("No data provided")
      ensures data.Some? && session.Some? ==> r == Written(streamWrite)
      ensures data.Some? && session.None? && hasConnection ==> r == SentOverNetwork
      ensures data.Some? && session.None? && !hasConnection ==> r == Rejected("Not connected")
    {
      if data.None? {
        return Rejected("No data provided");
      }
      if session.Some? {
        return Written(streamWrite);
      } else if hasConnection {
        return SentOverNetwork;
      } else {
        return Rejected("Not connected");
      }
    }

    /** `read`: the text and hex of everything buffered, after which the
        buffer is empty; both are "" when nothing was buffered. */
    method Read(utf8: seq<Byte> -> Option<String>) returns (data: String, hexData: String)
      modifies this`readBuffer
      ensures readBuffer == []
      ensures old(readBuffer) == [] ==> data == [] && hexData == []
      ensures old(readBuffer) != [] ==>
        data == utf8(old(readBuffer)).GetOr([]) && hexData == HexOfBytes(old(readBuffer))
    {
      if readBuffer == [] {
        return [], [];
      }
      data := utf8(readBuffer).GetOr([]);
      hexData := HexOfBytes(readBuffer);
      readBuffer := [];
    }

    method StartListening()
      modifies this`listening
      ensures listening
    {
      listening := true;
    }

    method StopListening()
      modifies this`listening
      ensures !listening
    {
      listening := false;
    }

    /** `handleReceivedData`: the chunk is always buffered, and announced
        only while listening. */
    method HandleReceivedData(data: seq<Byte>, now: int, utf8: seq<Byte> -> Option<String>)
      modifies this`readBuffer, this`notifications
      ensures readBuffer == old(readBuffer) + data
      ensures notifications == old(notifications) +
        if listening then [ChunkNotification(data, now, accessory, utf8)] else []
    {
      readBuffer := readBuffer + data;
      if listening {
        var dataStr := utf8(data).GetOr([]);
        var hexStr := HexOfBytes(data);
        var deviceId := if accessory.Some? then accessory.value.connectionID else 0;
        notifications := notifications + [DataReceived(dataStr, hexStr, now, deviceId)];
      }
    }

    /** `readData(from:)`: the reads the input stream delivers while it has
        bytes available; a read of nothing is skipped. */
    method ReadData(input: seq<StreamRead>, utf8: seq<Byte> -> Option<String>)
      modifies this`readBuffer, this`notifications
      ensures readBuffer == old(readBuffer) + Concat(input)
      ensures notifications == old(notifications) +
        if listening then ChunkNotifications(input, accessory, utf8) else []
    {
      var i := 0;
      while i < |input|
        invariant 0 <= i <= |input|
        invariant readBuffer + Concat(input[i..]) == old(readBuffer) + Concat(input)
        invariant notifications + (if listening then ChunkNotifications(input[i..], accessory, utf8) else [])
               == old(notifications) + if listening then ChunkNotifications(input, accessory, utf8) else []
      {
        ReadOne(input, i, utf8);
        i := i + 1;
      }
    }

    /** One pass of the `readData` loop: a non-empty read is handled, an
        empty one skipped. */
    method ReadOne(input: seq<StreamRead>, i: nat, utf8: seq<Byte> -> Option<String>)
      requires i < |input|
      modifies this`readBuffer, this`notifications
      ensures readBuffer + Concat(input[i + 1..]) == old(readBuffer) + Concat(input[i..])
      ensures notifications + (if listening then ChunkNotifications(input[i + 1..], accessory, utf8) else [])
           == old(notifications) + (if listening then ChunkNotifications(input[i..], accessory, utf8) else [])
    {
      ReadStep(input, i, accessory, utf8);
      var r := input[i];
      ghost var rest := if listening then ChunkNotifications(input[i + 1..], accessory, utf8) else [];
      if r.bytes != [] {
        ghost var n := ChunkNotification(r.bytes, r.at, accessory, utf8);
        HandleReceivedData(r.bytes, r.at, utf8);
        assert readBuffer + Concat(input[i + 1..]) == old(readBuffer) + (r.bytes + Concat(input[i + 1..]));
        if listening {
          assert notifications + rest == old(notifications) + ([n] + rest);
        }
      } else {
        assert r.bytes + Concat(input[i + 1..]) == Concat(input[i + 1..]);
      }
    }

    /** `EAAccessoryDidConnect`: announce the accessory; vendor and product
        ids are always 0. */
    method AccessoryDidConnect(a: Accessory)
      modifies this`notifications
      ensures notifications == old(notifications) +
        [DeviceAttached(a.connectionID, 0, 0, a.name, a.manufacturer, a.serialNumber)]
    {
      notifications := notifications + [DeviceAttached(a.connectionID, 0, 0, a.name, a.manufacturer, a.serialNumber)];
    }

    /** `EAAccessoryDidDisconnect`: announce the detachment, and disconnect
        when it is the stored accessory. */
    method AccessoryDidDisconnect(a: Accessory)
      requires Valid()
      modifies this
      ensures Valid()
      ensures old(accessory).Some? && old(accessory).value.connectionID == a.connectionID ==>
        session == None && accessory == None && !listening && !hasConnection && readBuffer == [] &&
        notifications == old(notifications) +
          [DeviceDetached(a.connectionID), ConnectionStateChanged(false, Some(a.connectionID))]
      ensures !(old(accessory).Some? && old(accessory).value.connectionID == a.connectionID) ==>
        session == old(session) && accessory == old(accessory) && listening == old(listening) &&
        readBuffer == old(readBuffer) && hasConnection == old(hasConnection) &&
        notifications == old(notifications) + [DeviceDetached(a.connectionID)]
    {
      notifications := notifications + [DeviceDetached(a.connectionID)];
      if accessory.Some? && accessory.value.connectionID == a.connectionID {
        Disconnect();
        notifications := notifications + [ConnectionStateChanged(false, Some(a.connectionID))];
      }
    }

    /** The `errorOccurred` stream event. */
    method StreamErrorOccurred()
      requires Valid()
      modifies this
      ensures Valid()
      ensures session == None && accessory == None && !listening && !hasConnection && readBuffer == []
      ensures notifications == old(notifications) +
        [ConnectionStateChanged(false, None), Error("Stream error occurred")]
    {
      Disconnect();
      notifications := notifications + [ConnectionStateChanged(false, None), Error("Stream error occurred")];
    }

    /** The `endEncountered` stream event. */
    method StreamEndEncountered()
      requires Valid()
      modifies this
      ensures Valid()
      ensures session == None && accessory == None && !listening && !hasConnection && readBuffer == []
      ensures notifications == old(notifications) + [ConnectionStateChanged(false, None)]
    {
      Disconnect();
      notifications := notifications + [ConnectionStateChanged(false, None)];
    }
  }
}
