/**
 * The response interpreter: parseMessage.
 *
 * A checked inbound frame is turned into the sender's device id and at
 * most one event: a measurement for command class 0xC0, an acknowledgement
 * chosen by the echoed sub-command for class 0xC5, and an "unknown
 * command" notice for any other class.
 */
module Interpreter {
  import opened Wrappers
  import opened Checksum
  import Framer

  const MEASUREMENT: byte := 0xC0
  const ACKNOWLEDGEMENT: byte := 0xC5

  /** The acknowledgements and notices parseMessage reports. */
  datatype Info =
    | ActiveMode
    | QueryMode
    | NewDeviceId
    | SleepMode
    | WorkMode
      /** Reported in the order day.month.year (bytes 5, 4 and 3). */
    | Firmware(year: byte, month: byte, day: byte)
    | ContinuousMode
      /** Works 30 seconds, then sleeps `sleepMinutes` minutes and 30 seconds. */
    | Periodic(sleepMinutes: nat)
    | UnknownCommand(commandClass: byte)

  /** What parseMessage sends on: PM values (in tenths of µg/m³) or an info message with the current id. */
  datatype Event =
    | Measurement(pm25: nat, pm10: nat)
    | Info(info: Info, deviceId: DeviceId)

  /** The device id parseMessage stores and the event it emits, if any. */
  datatype Report = Report(deviceId: DeviceId, event: Option<Event>)

  /** `buffer[6] << 8 | buffer[7]`: byte 6 is the high byte. */
  function SenderId(buffer: seq<byte>): (id: DeviceId)
    requires |buffer| >= 8
    ensures High(id) == buffer[6] && Low(id) == buffer[7]
  {
    buffer[6] as int * 256 + buffer[7]
  }

  /** The event of an acknowledgement frame, by the sub-command in byte 2. */
  function Acknowledgement(buffer: seq<byte>, id: DeviceId): (r: Option<Event>)
    requires |buffer| >= 8
    ensures r.None? <==> buffer[2] !in {2, 5, 6, 7, 8}
    ensures r.Some? ==> r.value.Info? && r.value.deviceId == id
    ensures r.Some? && r.value.info.Periodic? ==> buffer[4] > 0 && r.value.info.sleepMinutes == buffer[4] - 1
  {
    if buffer[2] == 2 then Some(Info(if buffer[4] == 0 then ActiveMode else QueryMode, id))
    else if buffer[2] == 5 then Some(Info(NewDeviceId, id))
    else if buffer[2] == 6 then Some(Info(if buffer[4] == 0 then SleepMode else WorkMode, id))
    else if buffer[2] == 7 then Some(Info(Firmware(buffer[3], buffer[4], buffer[5]), id))
    else if buffer[2] == 8 then
      Some(Info(if buffer[4] == 0 then ContinuousMode else Periodic(buffer[4] - 1), id))
    else None
  }

  /** parseMessage on a frame the framer has accepted. */
  function Interpret(buffer: seq<byte>): (r: Report)
    requires |buffer| >= 8
    ensures High(r.deviceId) == buffer[6] && Low(r.deviceId) == buffer[7]
    ensures r.event.Some? && r.event.value.Info? ==> r.event.value.deviceId == r.deviceId
    ensures (r.event.Some? && r.event.value.Measurement?) <==> buffer[1] == 0xC0
    ensures buffer[1] == 0xC0 ==>
      r.event.value.pm25 == buffer[2] as int + buffer[3] as int * 256 && r.event.value.pm10 == buffer[4] as int + buffer[5] as int * 256
    ensures buffer[1] != 0xC0 && buffer[1] != 0xC5 ==> r.event == Some(Info(UnknownCommand(buffer[1]), r.deviceId))
    ensures r.event.None? <==> buffer[1] == 0xC5 && buffer[2] !in {2, 5, 6, 7, 8}
    ensures r.event == Some(Info(ActiveMode, r.deviceId)) <==> buffer[1] == 0xC5 && buffer[2] == 2 && buffer[4] == 0
    ensures r.event == Some(Info(QueryMode, r.deviceId)) <==> buffer[1] == 0xC5 && buffer[2] == 2 && buffer[4] != 0
    ensures r.event == Some(Info(SleepMode, r.deviceId)) <==> buffer[1] == 0xC5 && buffer[2] == 6 && buffer[4] == 0
    ensures r.event == Some(Info(WorkMode, r.deviceId)) <==> buffer[1] == 0xC5 && buffer[2] == 6 && buffer[4] != 0
    ensures r.event == Some(Info(NewDeviceId, r.deviceId)) <==> buffer[1] == 0xC5 && buffer[2] == 5
    ensures r.event == Some(Info(ContinuousMode, r.deviceId)) <==> buffer[1] == 0xC5 && buffer[2] == 8 && buffer[4] == 0
    ensures buffer[1] == 0xC5 && buffer[2] == 8 && buffer[4] != 0 ==>
      r.event == Some(Info(Periodic(buffer[4] - 1), r.deviceId))
    ensures buffer[1] == 0xC5 && buffer[2] == 7 ==>
      r.event == Some(Info(Firmware(buffer[3], buffer[4], buffer[5]), r.deviceId))
  {
    var id := SenderId(buffer);
    if buffer[1] == MEASUREMENT then
      Report(id, Some(Measurement(buffer[2] as int + buffer[3] as int * 256, buffer[4] as int + buffer[5] as int * 256)))
    else if buffer[1] == ACKNOWLEDGEMENT then
      Report(id, Acknowledgement(buffer, id))
    else
      Report(id, Some(Info(UnknownCommand(buffer[1]), id)))
  }

  /** The checksummed 10-byte reply a sensor sends, as the framer expects it. */
  function Reply(commandClass: byte, data: seq<byte>): (r: seq<byte>)
    requires |data| == 6
    ensures Framer.IsResponse(r) && r[1] == commandClass && r[2..8] == data
  {
    var r := [HEAD, commandClass] + data + [CalcCrcFromData(data), TAIL];
    assert r[2..8] == data;
    r
  }

  /** A measurement reply with the raw counts little-endian and the id high byte first. */
  function MeasurementReply(pm25: nat, pm10: nat, id: DeviceId): (r: seq<byte>)
    requires pm25 < 0x10000 && pm10 < 0x10000
    ensures Framer.IsResponse(r)
  {
    Reply(MEASUREMENT, [pm25 % 256, pm25 / 256, pm10 % 256, pm10 / 256, High(id), Low(id)])
  }

  /** An acknowledgement reply echoing a sub-command, with three data bytes and the id. */
  function AckReply(subCommand: byte, b3: byte, b4: byte, b5: byte, id: DeviceId): (r: seq<byte>)
    ensures Framer.IsResponse(r)
  {
    Reply(ACKNOWLEDGEMENT, [subCommand, b3, b4, b5, High(id), Low(id)])
  }

  /** A measurement reply is read back as the same counts and the same sender. */
  lemma MeasurementRoundTrip(pm25: nat, pm10: nat, id: DeviceId)
    requires pm25 < 0x10000 && pm10 < 0x10000
    ensures Interpret(MeasurementReply(pm25, pm10, id)) == Report(id, Some(Measurement(pm25, pm10)))
  {
    var r := MeasurementReply(pm25, pm10, id);
    assert r[2..8][0] == r[2];
  }
}
