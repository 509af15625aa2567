/**
 * The outbound command frames of the SDS011 protocol.
 *
 * Every command is a 19-byte frame: the head 0xAA, the command class 0xB4,
 * a 15-byte payload, the checksum of the payload and the tail 0xAB. The
 * source builds each frame as a hex string and parses it into a buffer;
 * here the frame is the byte sequence that buffer holds.
 */
module Encoder {
  import opened Wrappers
  import opened Checksum

  const COMMAND_CLASS: byte := 0xB4

  /** Sub-command codes, the first payload byte. */
  const REPORTING_MODE: byte := 2
  const QUERY_DATA: byte := 4
  const DEVICE_ID: byte := 5
  const SLEEP_WORK: byte := 6
  const FIRMWARE_VERSION: byte := 7
  const WORKING_PERIOD: byte := 8

  /** Operation flags, the second payload byte. */
  const QUERY: byte := 0
  const SET: byte := 1

  /** A JavaScript value as a command parameter can hold it. */
  datatype Value = Undefined | Str(s: string) | Num(n: int)

  /**
   * What a command payload carries: sub-command, operation flag, value
   * byte, the new id (payload bytes 11 and 12) and the target id (payload
   * bytes 13 and 14). Payload bytes 3 to 10 are always zero.
   */
  datatype Request = Request(subCommand: byte, operation: byte, value: byte, newId: DeviceId, target: DeviceId)

  /** `id.toString(16).padStart(4, 0)` read back as two bytes, high byte first. */
  function IdBytes(id: DeviceId): (r: seq<byte>)
    ensures |r| == 2 && r[0] as int * 256 + r[1] == id
  {
    [High(id), Low(id)]
  }

  /** 'AAB4' + data + crc + 'AB', where crc is the checksum of the data bytes. */
  function Frame(payload: seq<byte>): (f: seq<byte>)
    requires |payload| == 15
    ensures |f| == 19 && f[2..17] == payload
    ensures f[0] == HEAD && f[1] == COMMAND_CLASS && f[17] == CalcCrcFromData(payload) && f[18] == TAIL
  {
    [HEAD, COMMAND_CLASS] + payload + [CalcCrcFromData(payload), TAIL]
  }

  /** The payload that carries a request. */
  function PayloadOf(q: Request): (p: seq<byte>)
    ensures |p| == 15
  {
    [q.subCommand, q.operation, q.value] + Zeros(8) + IdBytes(q.newId) + IdBytes(q.target)
  }

  /**
   * Reads an outbound frame back: it must be 19 bytes long, have the head,
   * the command class, a correct checksum, the tail and zero reserved bytes.
   */
  function Decode(f: seq<byte>): Option<Request>
  {
    if |f| == 19 && f[0] == HEAD && f[1] == COMMAND_CLASS && f[17] == CalcCrcFromData(f[2..17])
       && f[18] == TAIL && (forall k :: 5 <= k < 13 ==> f[k] == 0)
    then Some(Request(f[2], f[3], f[4], f[13] as int * 256 + f[14], f[15] as int * 256 + f[16]))
    else None
  }

  /** setDataReportingMode: any mode other than 'active' selects query mode. */
  function SetDataReportingMode(mode: Value, deviceID: DeviceId): (f: seq<byte>)
    ensures Decode(f) == Some(Request(REPORTING_MODE, SET, if mode == Str("active") then 0 else 1, 0, deviceID))
  {
    Frame([0x02, 0x01, if mode == Str("active") then 0x00 else 0x01] + Zeros(10) + IdBytes(deviceID))
  }

  /** getDataReportingMode. */
  function GetDataReportingMode(deviceID: DeviceId): (f: seq<byte>)
    ensures Decode(f) == Some(Request(REPORTING_MODE, QUERY, 0, 0, deviceID))
  {
    Frame([0x02] + Zeros(12) + IdBytes(deviceID))
  }

  /** queryData. */
  function QueryData(deviceID: DeviceId): (f: seq<byte>)
    ensures Decode(f) == Some(Request(QUERY_DATA, QUERY, 0, 0, deviceID))
  {
    Frame([0x04] + Zeros(12) + IdBytes(deviceID))
  }

  /** setDeviceId: the new id sits in payload bytes 11 and 12, before the target id. */
  function SetDeviceId(newDeviceID: DeviceId, deviceID: DeviceId): (f: seq<byte>)
    ensures Decode(f) == Some(Request(DEVICE_ID, QUERY, 0, newDeviceID, deviceID))
  {
    Frame([0x05] + Zeros(10) + IdBytes(newDeviceID) + IdBytes(deviceID))
  }

  /** setStatus: any mode other than 'sleep' selects work. */
  function SetStatus(mode: Value, deviceID: DeviceId): (f: seq<byte>)
    ensures Decode(f) == Some(Request(SLEEP_WORK, SET, if mode == Str("sleep") then 0 else 1, 0, deviceID))
  {
    Frame([0x06, 0x01, if mode == Str("sleep") then 0x00 else 0x01] + Zeros(10) + IdBytes(deviceID))
  }

  /** getStatus. */
  function GetStatus(deviceID: DeviceId): (f: seq<byte>)
    ensures Decode(f) == Some(Request(SLEEP_WORK, QUERY, 0, 0, deviceID))
  {
    Frame([0x06] + Zeros(12) + IdBytes(deviceID))
  }

  /**
   * `('00' + period.toString(16)).substr(-2)`: keeps the last two hex
   * digits of the period, that is the period modulo 256.
   */
  function PeriodByte(period: nat): (b: byte)
    ensures exists k: nat :: period == k * 256 + b
  {
    assert period == (period / 256) * 256 + period % 256;
    period % 256
  }

  /** setWorkingPeriod: 0 is continuous mode, n works 30 s and sleeps n*60-30 s. */
  function SetWorkingPeriod(period: nat, deviceID: DeviceId): (f: seq<byte>)
    ensures Decode(f) == Some(Request(WORKING_PERIOD, SET, PeriodByte(period), 0, deviceID))
    ensures period < 256 ==> Decode(f).value.value == period
  {
    Frame([0x08, 0x01, PeriodByte(period)] + Zeros(10) + IdBytes(deviceID))
  }

  /** getWorkingPeriod. */
  function GetWorkingPeriod(deviceID: DeviceId): (f: seq<byte>)
    ensures Decode(f) == Some(Request(WORKING_PERIOD, QUERY, 0, 0, deviceID))
  {
    Frame([0x08] + Zeros(12) + IdBytes(deviceID))
  }

  /** checkFirmwareVersion. */
  function CheckFirmwareVersion(deviceID: DeviceId): (f: seq<byte>)
    ensures Decode(f) == Some(Request(FIRMWARE_VERSION, QUERY, 0, 0, deviceID))
  {
    Frame([0x07] + Zeros(12) + IdBytes(deviceID))
  }

  /** Every request survives encoding and decoding. */
  lemma DecodeFrame(q: Request)
    ensures Decode(Frame(PayloadOf(q))) == Some(q)
  {
    var f := Frame(PayloadOf(q));
    assert f[2..17] == PayloadOf(q);
  }

  /** A decodable frame is exactly the frame of what it decodes to. */
  lemma FrameOfDecode(f: seq<byte>)
    requires Decode(f).Some?
    ensures f == Frame(PayloadOf(Decode(f).value))
  {
    var q := Decode(f).value;
    var g := Frame(PayloadOf(q));
    assert f[13] == High(q.newId) && f[14] == Low(q.newId);
    assert f[15] == High(q.target) && f[16] == Low(q.target);
    assert f[2..17] == PayloadOf(q);
    forall k | 0 <= k < 19 ensures f[k] == g[k] {
      if 2 <= k < 17 {
        assert f[k] == f[2..17][k - 2];
        assert g[k] == g[2..17][k - 2];
      }
    }
  }

  /** The checksum byte is the sum of the non-zero payload fields, modulo 256. */
  lemma {:induction false} PayloadChecksum(q: Request)
    ensures CalcCrcFromData(PayloadOf(q)) ==
      (q.subCommand as int + q.operation + q.value
        + High(q.newId) + Low(q.newId) + High(q.target) + Low(q.target)) % 256
  {
    var head := [q.subCommand, q.operation, q.value];
    var ids := [High(q.newId), Low(q.newId), High(q.target), Low(q.target)];
    assert PayloadOf(q) == head + Zeros(8) + ids;
    FoldZeros(head, 8);
    FoldAppend(head + Zeros(8), ids);
    var h2 := head[..2];
    assert head[..|head| - 1] == h2 && h2[..1] == [q.subCommand];
    assert Fold(h2) == q.subCommand as int + q.operation;
    var i3 := ids[..3];
    var i2 := i3[..2];
    assert ids[..|ids| - 1] == i3 && i3[..2] == i2 && i2[..1] == [High(q.newId)];
    assert Fold(i2) == High(q.newId) as int + Low(q.newId);
    assert Fold(i3) == Fold(i2) + High(q.target);
  }

  /** setDeviceId(0x1234) to the broadcast address, byte by byte. */
  lemma SetDeviceIdExample()
    ensures SetDeviceId(0x1234, BROADCAST) ==
      [0xAA, 0xB4, 0x05, 0, 0, 0, 0, 0, 0, 0, 0, 0, 0, 0x12, 0x34, 0xFF, 0xFF, 0x49, 0xAB]
  {
    var q := Request(DEVICE_ID, QUERY, 0, 0x1234, BROADCAST);
    FrameOfDecode(SetDeviceId(0x1234, BROADCAST));
    PayloadChecksum(q);
  }
}
