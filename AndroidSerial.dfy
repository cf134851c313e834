/** The Android adapter of the plugin (`UsbSerial` in
    android/src/main/java/dev/emmanuelrobinson/capacitorusbserial/UsbSerial.java):
    the `%02X` rendering of Java's signed bytes, the serial-option defaults
    and parity mapping of `connect`, device and driver lookup, and the
    `serialPort`/`ioManager`/`currentDevice` fields with the guards that
    read them. `UsbManager`, the prober, port I/O and UTF-8 decoding are
    parameters. */
module AndroidSerial {
  import opened Results
  import opened Text
  import opened Hex
  import WebSerial

  // =====================================================================
  // Java bytes and `bytesToHex`.

  /** A Java `byte`: signed, eight bits. */
  type JavaByte = x: int | -128 <= x < 128

  /** The value `%X` prints for a `byte`: a negative byte is printed as
      itself plus 2^8, so the bit pattern is kept. */
  function Unsigned(b: JavaByte): (u: Byte)
    ensures u % 256 == b % 256
    ensures b >= 0 ==> u == b
  {
    if b < 0 then b + 256 else b
  }

  /** The byte a value 0-255 is stored as. */
  function Signed(u: Byte): (b: JavaByte)
    ensures Unsigned(b) == u
  {
    if u >= 128 then u - 256 else u
  }

  function Unsigneds(bs: seq<JavaByte>): (us: seq<Byte>)
    ensures |us| == |bs|
    ensures forall i :: 0 <= i < |bs| ==> us[i] == Unsigned(bs[i])
  {
    seq(|bs|, i requires 0 <= i < |bs| => Unsigned(bs[i]))
  }

  /** `bytesToHex`: two upper-case hex digits per byte, appended in order. */
  method BytesToHex(bytes: array<JavaByte>) returns (hex: String)
    ensures hex == HexOfBytes(Unsigneds(bytes[..]))
  {
    hex := [];
    for i := 0 to bytes.Length
      invariant hex == HexOfBytes(Unsigneds(bytes[..i]))
    {
      assert Unsigneds(bytes[..i + 1]) == Unsigneds(bytes[..i]) + [Unsigned(bytes[i])];
      HexOfBytesAppend(Unsigneds(bytes[..i]), [Unsigned(bytes[i])]);
      hex := hex + ByteHex(Unsigned(bytes[i]));
    }
    assert bytes[..bytes.Length] == bytes[..];
  }

  /** The rendering keeps length and order and loses nothing: it has two
      upper-case digits per byte, digits 2i and 2i+1 are byte i, and reading
      the digits back gives the original signed bytes. */
  lemma BytesToHexFaithful(bs: seq<JavaByte>)
    ensures |HexOfBytes(Unsigneds(bs))| == 2 * |bs|
    ensures forall k :: 0 <= k < 2 * |bs| ==> IsUpperHexDigit(HexOfBytes(Unsigneds(bs))[k])
    ensures forall i :: 0 <= i < |bs| ==> HexOfBytes(Unsigneds(bs))[2 * i..2 * i + 2] == ByteHex(Unsigned(bs[i]))
    ensures ParseHexBytes(HexOfBytes(Unsigneds(bs))) == Some(Unsigneds(bs))
    ensures forall i :: 0 <= i < |bs| ==> Signed(Unsigneds(bs)[i]) == bs[i]
  {
    HexOfBytesDigits(Unsigneds(bs));
    forall i | 0 <= i < |bs|
      ensures HexOfBytes(Unsigneds(bs))[2 * i..2 * i + 2] == ByteHex(Unsigned(bs[i]))
    {
      HexOfBytesAt(Unsigneds(bs), i);
    }
    HexOfBytesRoundTrip(Unsigneds(bs));
  }

  /** A negative byte prints with a leading digit 8-F, a non-negative one
      with 0-7: the sign shows in the first digit, never as a '-'. */
  lemma SignInFirstDigit(b: JavaByte)
    ensures b < 0 <==> DigitValue(ByteHex(Unsigned(b))[0]) >= 8
  {
  }

  // =====================================================================
  // Serial options and parity in `connect`.

  /** The parity constants of `UsbSerialPort`. */
  datatype Parity = ParityNone | ParityOdd | ParityEven | ParityMark | ParitySpace

  /** The `switch` on the parity string: the four names map to their
      constants, every other string leaves `PARITY_NONE`. */
  function ParityOf(s: String): Parity {
    if s == "odd" then ParityOdd
    else if s == "even" then ParityEven
    else if s == "mark" then ParityMark
    else if s == "space" then ParitySpace
    else ParityNone
  }

  /** The name each parity is requested by. */
  function ParityName(p: Parity): String {
    match p
    case ParityNone => "none"
    case ParityOdd => "odd"
    case ParityEven => "even"
    case ParityMark => "mark"
    case ParitySpace => "space"
  }

  /** Every parity is reached by its own name, and only the four other
      names select anything but `PARITY_NONE`. */
  lemma ParityOfNames(s: String, p: Parity)
    ensures ParityOf(ParityName(p)) == p
    ensures ParityOf(s) != ParityNone <==> s in {"odd", "even", "mark", "space"}
    ensures ParityOf(s) != ParityNone ==> ParityName(ParityOf(s)) == s
  {
  }

  /** `UsbSerialPort.STOPBITS_1`. */
  const StopBits1: int := 1

  /** What `setParameters` is called with. */
  datatype LineSettings = LineSettings(baudRate: int, dataBits: int, stopBits: int, parity: Parity)

  /** Lines 169-181: each missing option takes its default, a missing
      `serialOptions` object counts as one with nothing set, and every
      value that is given is used, zero included. */
  function LineSettingsFor(options: Option<WebSerial.SerialOptions>): (s: LineSettings)
    ensures options.None? ==> s == LineSettings(115200, 8, StopBits1, ParityNone)
    ensures options.Some? ==>
      s.baudRate == options.value.baudRate.GetOr(115200) &&
      s.dataBits == options.value.dataBits.GetOr(8) &&
      s.stopBits == options.value.stopBits.GetOr(StopBits1) &&
      s.parity == ParityOf(options.value.parity.GetOr("none"))
  {
    var o := options.GetOr(WebSerial.SerialOptions(None, None, None, None));
    LineSettings(o.baudRate.GetOr(115200), o.dataBits.GetOr(8), o.stopBits.GetOr(StopBits1),
                 ParityOf(o.parity.GetOr("none")))
  }

  /** The two adapters agree on the defaults and on every non-zero value,
      and differ on zero: Android uses a given 0, the web adapter replaces
      it by the default. */
  lemma DefaultsAgreeExceptZero(o: WebSerial.SerialOptions)
    ensures LineSettingsFor(Some(o)).baudRate == WebSerial.OpenOptionsFor(o).baudRate
        <==> o.baudRate != Some(0)
    ensures LineSettingsFor(Some(o)).dataBits == WebSerial.OpenOptionsFor(o).dataBits
        <==> o.dataBits != Some(0)
    ensures LineSettingsFor(Some(o)).stopBits == WebSerial.OpenOptionsFor(o).stopBits
        <==> o.stopBits != Some(0)
  {
  }

  // =====================================================================
  // Devices and drivers.

  /** What the model uses of an Android `UsbDevice`. */
  datatype UsbDevice = UsbDevice(deviceId: int, vendorId: int, productId: int, deviceName: String,
                                 manufacturerName: String, serialNumber: String)

  /** A probed `UsbSerialDriver`; the model keeps the id of its device. */
  datatype Driver = Driver(device: UsbDevice)

  /** An opened `UsbSerialPort`: port 0 of the driver for `deviceId`, and
      the settings applied to it, if `setParameters` was reached. */
  datatype SerialPort = SerialPort(deviceId: int, settings: Option<LineSettings>)

  /** The first device with the given id, if any. */
  function FirstDeviceWithId(devices: seq<UsbDevice>, id: int): (r: Option<UsbDevice>)
    ensures r.Some? ==> r.value in devices && r.value.deviceId == id
    ensures r.None? ==> forall d | d in devices :: d.deviceId != id
  {
    if devices == [] then None
    else if devices[0].deviceId == id then Some(devices[0])
    else
      var r := FirstDeviceWithId(devices[1..], id);
      assert forall d | d in devices :: d == devices[0] || d in devices[1..];
      r
  }

  /** ... and no earlier device has that id. */
  lemma {:induction false} FirstDeviceWithIdIsFirst(devices: seq<UsbDevice>, id: int, i: nat)
    requires i < |devices| && devices[i].deviceId == id
    requires forall j :: 0 <= j < i ==> devices[j].deviceId != id
    ensures FirstDeviceWithId(devices, id) == Some(devices[i])
  {
    if i > 0 {
      FirstDeviceWithIdIsFirst(devices[1..], id, i - 1);
    }
  }

  /** The loop of lines 184-189 (and 100-105): the first device whose id
      matches, scanning in the order the device list yields them. */
  method FindDevice(devices: seq<UsbDevice>, id: int) returns (device: Option<UsbDevice>)
    ensures device == FirstDeviceWithId(devices, id)
  {
    device := None;
    for i := 0 to |devices|
      invariant FirstDeviceWithId(devices, id) == FirstDeviceWithId(devices[i..], id)
      invariant device.None?
    {
      assert devices[i..][0] == devices[i];
      if devices[i].deviceId == id {
        device := Some(devices[i]);
        break;
      }
      assert devices[i..][1..] == devices[i + 1..];
    }
  }

  /** The index of the first driver for the device with the given id, or -1. */
  function FirstDriverFor(drivers: seq<Driver>, id: int): (k: int)
    ensures -1 <= k < |drivers|
    ensures k >= 0 ==> drivers[k].device.deviceId == id
    ensures forall j :: 0 <= j < |drivers| && (k == -1 || j < k) ==> drivers[j].device.deviceId != id
  {
    if drivers == [] then -1
    else if drivers[0].device.deviceId == id then 0
    else
      var k := FirstDriverFor(drivers[1..], id);
      assert forall j :: 1 <= j < |drivers| ==> drivers[j] == drivers[1..][j - 1];
      if k == -1 then -1 else k + 1
  }

  /** The loop of lines 200-205. */
  method FindDriver(drivers: seq<Driver>, id: int) returns (driver: Option<Driver>)
    ensures FirstDriverFor(drivers, id) == -1 ==> driver.None?
    ensures FirstDriverFor(drivers, id) >= 0 ==> driver == Some(drivers[FirstDriverFor(drivers, id)])
  {
    driver := None;
    for i := 0 to |drivers|
      invariant forall j :: 0 <= j < i ==> drivers[j].device.deviceId != id
      invariant driver.None?
    {
      if drivers[i].device.deviceId == id {
        driver := Some(drivers[i]);
        break;
      }
    }
  }

  /** The device `requestPermission` asks for: the first with the given id
      when an id is given, otherwise the first device of the list. */
  function ChosenDevice(deviceId: Option<int>, devices: seq<UsbDevice>): Option<UsbDevice> {
    if deviceId.Some? then FirstDeviceWithId(devices, deviceId.value)
    else if devices == [] then None
    else Some(devices[0])
  }

  /** No device is chosen exactly when there is none with the given id, or
      no device at all when no id is given. */
  lemma ChosenDeviceNone(deviceId: Option<int>, devices: seq<UsbDevice>)
    ensures ChosenDevice(deviceId, devices).None? <==>
      if deviceId.Some? then forall d | d in devices :: d.deviceId != deviceId.value else devices == []
    ensures ChosenDevice(deviceId, devices).Some? ==> ChosenDevice(deviceId, devices).value in devices
  {
  }

  /** Everything the adapter passes to `notifyListeners`. A `dataReceived`
      event carries a device id only while a device is current. */
  datatype Notification =
    | DataReceived(data: String, hexData: String, timestamp: int, deviceId: Option<int>)
    | ConnectionStateChanged(connected: bool, connectedId: int)

  /** The outcome of `connect`. */
  datatype ConnectResult = Connected | Rejected(message: String)

  // =====================================================================
  // The adapter object.

  class UsbSerialAndroid {
    var serialPort: Option<SerialPort>
    /** Whether a `SerialInputOutputManager` has been created and not stopped. */
    var ioManager: bool
    var currentDevice: Option<UsbDevice>
    /** Every notification sent to listeners, oldest first. */
    var notifications: seq<Notification>

    constructor ()
      ensures serialPort == None && !ioManager && currentDevice == None && notifications == []
    {
      serialPort := None;
      ioManager := false;
      currentDevice := None;
      notifications := [];
    }

    /** `requestPermission`: pick the device and report permission as
        granted whether or not it was held; reject when there is no
        device. The permission request itself is not modelled. */
    method RequestPermission(deviceId: Option<int>, devices: seq<UsbDevice>)
      returns (chosen: Option<UsbDevice>, r: Result<bool>)
      ensures chosen == ChosenDevice(deviceId, devices)
      ensures chosen.None? ==> r == Err("No USB device found")
      ensures chosen.Some? ==> r == Ok(true)
    {
      if deviceId.Some? {
        chosen := FindDevice(devices, deviceId.value);
      } else {
        chosen := if devices == [] then None else Some(devices[0]);
      }
      if chosen.None? {
        return chosen, Err("No USB device found");
      }
      r := Ok(true);
    }

    /** `connect`. `devices` is the device list, `drivers` what the prober
        finds, `openDevice(d)` whether `usbManager.openDevice` returns a
        connection, and `ioFailure` the message of an `IOException` thrown
        by `open` or `setParameters`, if one is. */
    method Connect(deviceId: Option<int>, options: Option<WebSerial.SerialOptions>,
                   devices: seq<UsbDevice>, drivers: seq<Driver>,
                   openDevice: UsbDevice -> bool, ioFailure: Option<String>)
      returns (r: ConnectResult)
      modifies this
      ensures deviceId.None? ==> r == Rejected("Device ID is required")
      ensures deviceId.Some? && FirstDeviceWithId(devices, deviceId.value).None? ==>
        r == Rejected("Device not found")
      ensures deviceId.Some? && FirstDeviceWithId(devices, deviceId.value).Some? &&
              FirstDriverFor(drivers, deviceId.value) == -1 ==>
        r == Rejected("No driver for device")
      ensures deviceId.Some? && FirstDeviceWithId(devices, deviceId.value).Some? &&
              FirstDriverFor(drivers, deviceId.value) >= 0 &&
              !openDevice(FirstDeviceWithId(devices, deviceId.value).value) ==>
        r == Rejected("Cannot open device")
      ensures deviceId.None? || FirstDeviceWithId(devices, deviceId.value).None? ||
              FirstDriverFor(drivers, deviceId.value) == -1 ||
              !openDevice(FirstDeviceWithId(devices, deviceId.value).value) ==>
        serialPort == old(serialPort) && ioManager == old(ioManager) &&
        currentDevice == old(currentDevice) && notifications == old(notifications)
      ensures deviceId.Some? && FirstDeviceWithId(devices, deviceId.value).Some? &&
              FirstDriverFor(drivers, deviceId.value) >= 0 &&
              openDevice(FirstDeviceWithId(devices, deviceId.value).value) ==>
        if ioFailure.Some? then
          r == Rejected("Failed to connect: " + ioFailure.value) &&
          serialPort == Some(SerialPort(deviceId.value, None)) && ioManager == old(ioManager) &&
          currentDevice == old(currentDevice) && notifications == old(notifications)
        else
          r == Connected &&
          serialPort == Some(SerialPort(deviceId.value, Some(LineSettingsFor(options)))) && ioManager &&
          currentDevice == FirstDeviceWithId(devices, deviceId.value) &&
          notifications == old(notifications) + [ConnectionStateChanged(true, deviceId.value)]
    {
      if deviceId.None? {
        return Rejected("Device ID is required");
      }
      var id := deviceId.value;
      var settings := LineSettingsFor(options);
      var device := FindDevice(devices, id);
      if device.None? {
        return Rejected("Device not found");
      }
      var driver := FindDriver(drivers, id);
      if driver.None? {
        return Rejected("No driver for device");
      }
      if !openDevice(device.value) {
        return Rejected("Cannot open device");
      }
      serialPort := Some(SerialPort(driver.value.device.deviceId, None));
      if ioFailure.Some? {
        return Rejected("Failed to connect: " + ioFailure.value);
      }
      serialPort := Some(SerialPort(driver.value.device.deviceId, Some(settings)));
      currentDevice := device;
      ioManager := true;
      notifications := notifications + [ConnectionStateChanged(true, id)];
      r := Connected;
    }

    /** The private `disconnect`: the I/O manager is stopped and the port
        and device dropped. An exception from `close` is logged and
        swallowed, so the outcome is the same whether or not it throws. */
    method Disconnect()
      modifies this
      ensures serialPort == None && !ioManager && currentDevice == None
      ensures notifications == old(notifications)
    {
      if ioManager {
        ioManager := false;
      }
      if serialPort.Some? {
        serialPort := None;
      }
      currentDevice := None;
    }

    /** `write`: no data is rejected first, then a missing port; otherwise
        the UTF-8 bytes go to the port, which reports `written` or fails. */
    method Write(data: Option<String>, written: int, ioFailure: Option<String>) returns (r: Result<int>)
      ensures data.None? ==> r == Err("No data provided")
      ensures data.Some? && serialPort.None? ==> r == Err("Not connected")
      ensures data.Some? && serialPort.Some? ==>
        r == if ioFailure.Some? then Err("Write failed: " + ioFailure.value) else Ok(written)
    {
      if data.None? {
        return Err("No data provided");
      }
      if serialPort.None? {
        return Err("Not connected");
      }
      if ioFailure.Some? {
        return Err("Write failed: " + ioFailure.value);
      }
      r := Ok(written);
    }

    /** `startListening` only checks for a port: the I/O manager already
        delivers data from `connect` on. */
    method StartListening() returns (r: Result<()>)
      ensures r == if serialPort.None? then Err("Not connected") else Ok(())
    {
      if serialPort.None? {
        return Err("Not connected");
      }
      r := Ok(());
    }

    /** `stopListening` always succeeds and changes nothing. */
    method StopListening() returns (r: Result<()>)
      ensures r.Ok?
    {
      r := Ok(());
    }

    /** `onNewData`: every chunk is announced, listening or not, with its
        text, its hex, the clock reading, and the current device's id when
        there is one. */
    method OnNewData(data: array<JavaByte>, now: int, utf8: seq<Byte> -> String)
      modifies this`notifications
      ensures notifications == old(notifications) +
        [DataReceived(utf8(Unsigneds(data[..])), HexOfBytes(Unsigneds(data[..])), now,
                      if currentDevice.Some? then Some(currentDevice.value.deviceId) else None)]
    {
      var dataStr := utf8(Unsigneds(data[..]));
      var hexStr := BytesToHex(data);
      var deviceId := if currentDevice.Some? then Some(currentDevice.value.deviceId) else None;
      notifications := notifications + [DataReceived(dataStr, hexStr, now, deviceId)];
    }

    /** The detach broadcast: only the current device disconnects the
        adapter and is announced. */
    method OnDeviceDetached(device: UsbDevice)
      modifies this
      ensures old(currentDevice) == Some(device) ==>
        serialPort == None && !ioManager && currentDevice == None &&
        notifications == old(notifications) + [ConnectionStateChanged(false, device.deviceId)]
      ensures old(currentDevice) != Some(device) ==>
        serialPort == old(serialPort) && ioManager == old(ioManager) &&
        currentDevice == old(currentDevice) && notifications == old(notifications)
    {
      if currentDevice.Some? && currentDevice.value == device {
        Disconnect();
        notifications := notifications + [ConnectionStateChanged(false, device.deviceId)];
      }
    }
  }
}
