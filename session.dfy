/**
 * The sensor node: the shared device id, the serial parser, parseMessage
 * as a state change, and the input handler that turns a command message
 * into the frames it writes to the serial port.
 */
module Session {
  import opened Wrappers
  import opened Checksum
  import opened Encoder
  import opened Framer
  import opened Interpreter

  /** An input message: `payload`, `command` and `parameter`, each possibly undefined. */
  datatype Message = Message(payload: Value, command: Value, parameter: Value)

  /**
   * What the input handler does with a message: the frames it writes, in
   * order; or a TypeError raised before anything is written; or a
   * parameter the model does not cover (a string, an out-of-range number).
   */
  datatype Outcome = Sent(frames: seq<seq<byte>>) | Raised | Unmodelled

  /** The command is `msg.command`, or `msg.payload` when there is no command. */
  function CommandOf(msg: Message): (r: Value)
    ensures msg.command != Undefined ==> r == msg.command
    ensures msg.command == Undefined ==> r == msg.payload
  {
    if msg.command == Undefined then msg.payload else msg.command
  }

  /** The parameter is only taken from a message that names a command. */
  function ParameterOf(msg: Message): (r: Value)
    ensures msg.command != Undefined ==> r == msg.parameter
    ensures msg.command == Undefined ==> r == Undefined
  {
    if msg.command == Undefined then Undefined else msg.parameter
  }

  /** The cases of the input switch. */
  datatype Command =
    | SetDataReportingMode | SetActive | SetQuery | GetDataReportingMode | QueryData
    | SetDeviceId | SetStatus | Sleep | Work | GetStatus | SetWorkingPeriod
    | SetContinuousMode | GetWorkingPeriod | CheckFirmwareVersion

  /** The case label of each command, as the switch compares it with `===`. */
  function Label(c: Command): string
  {
    match c
    case SetDataReportingMode => "setDataReportingMode"
    case SetActive => "setActive"
    case SetQuery => "setQuery"
    case GetDataReportingMode => "getDataReportingMode"
    case QueryData => "queryData"
    case SetDeviceId => "setDeviceId"
    case SetStatus => "setStatus"
    case Sleep => "sleep"
    case Work => "work"
    case GetStatus => "getStatus"
    case SetWorkingPeriod => "setWorkingPeriod"
    case SetContinuousMode => "setContinuousMode"
    case GetWorkingPeriod => "getWorkingPeriod"
    case CheckFirmwareVersion => "checkFirmwareVersion"
  }

  /** The switch: the case whose label equals the command, or none for the default branch. */
  function Switch(command: Value): (r: Option<Command>)
    ensures r.Some? ==> command == Str(Label(r.value))
    ensures r.None? ==> forall c: Command :: command != Str(Label(c))
  {
    if !command.Str? then None
    else if command.s == "setDataReportingMode" then Some(SetDataReportingMode)
    else if command.s == "setActive" then Some(SetActive)
    else if command.s == "setQuery" then Some(SetQuery)
    else if command.s == "getDataReportingMode" then Some(GetDataReportingMode)
    else if command.s == "queryData" then Some(QueryData)
    else if command.s == "setDeviceId" then Some(SetDeviceId)
    else if command.s == "setStatus" then Some(SetStatus)
    else if command.s == "sleep" then Some(Sleep)
    else if command.s == "work" then Some(Work)
    else if command.s == "getStatus" then Some(GetStatus)
    else if command.s == "setWorkingPeriod" then Some(SetWorkingPeriod)
    else if command.s == "setContinuousMode" then Some(SetContinuousMode)
    else if command.s == "getWorkingPeriod" then Some(GetWorkingPeriod)
    else if command.s == "checkFirmwareVersion" then Some(CheckFirmwareVersion)
    else None
  }

  /** The commands whose parameter is printed in hex and must therefore be a number. */
  predicate NeedsNumber(c: Command)
  {
    c == SetDeviceId || c == SetWorkingPeriod
  }

  /** The numbers the model covers for those commands. */
  predicate InDomain(c: Command, parameter: Value)
  {
    parameter.Num? && 0 <= parameter.n && (c == SetDeviceId ==> parameter.n <= 0xFFFF)
  }

  /**
   * What the first frame of each command asks of the sensor, written as a
   * table of requests.
   */
  ghost function Requested(c: Command, parameter: Value, id: DeviceId): Request
    requires NeedsNumber(c) ==> InDomain(c, parameter)
  {
    match c
    case SetDataReportingMode => Request(2, 1, if parameter == Str("active") then 0 else 1, 0, id)
    case SetActive => Request(2, 1, 0, 0, id)
    case SetQuery => Request(2, 1, 1, 0, id)
    case GetDataReportingMode => Request(2, 0, 0, 0, id)
    case QueryData => Request(4, 0, 0, 0, id)
    case SetDeviceId => Request(5, 0, 0, parameter.n, id)
    case SetStatus => Request(6, 1, if parameter == Str("sleep") then 0 else 1, 0, id)
    case Sleep => Request(6, 1, 0, 0, id)
    case Work => Request(6, 1, 1, 0, id)
    case GetStatus => Request(6, 0, 0, 0, id)
    case SetWorkingPeriod => Request(8, 1, parameter.n % 256, 0, id)
    case SetContinuousMode => Request(8, 1, 0, 0, id)
    case GetWorkingPeriod => Request(8, 0, 0, 0, id)
    case CheckFirmwareVersion => Request(7, 0, 0, 0, id)
  }

  /** The encoder call of each case of the input switch, to the current device id. */
  function CommandFrame(c: Command, parameter: Value, id: DeviceId): (f: seq<byte>)
    requires NeedsNumber(c) ==> InDomain(c, parameter)
    ensures Decode(f) == Some(Requested(c, parameter, id))
  {
    match c
    case SetDataReportingMode => Encoder.SetDataReportingMode(parameter, id)
    case SetActive => Encoder.SetDataReportingMode(Str("active"), id)
    case SetQuery => Encoder.SetDataReportingMode(Str("query"), id)
    case GetDataReportingMode => Encoder.GetDataReportingMode(id)
    case QueryData => Encoder.QueryData(id)
    case SetDeviceId => Encoder.SetDeviceId(parameter.n, id)
    case SetStatus => Encoder.SetStatus(parameter, id)
    case Sleep => Encoder.SetStatus(Str("sleep"), id)
    case Work => Encoder.SetStatus(Str("work"), id)
    case GetStatus => Encoder.GetStatus(id)
    case SetWorkingPeriod => Encoder.SetWorkingPeriod(parameter.n, id)
    case SetContinuousMode => Encoder.SetWorkingPeriod(0, id)
    case GetWorkingPeriod => Encoder.GetWorkingPeriod(id)
    case CheckFirmwareVersion => Encoder.CheckFirmwareVersion(id)
  }

  /** The sensor node with its two pieces of state. */
  class Sds011 {
    /** The module-level deviceId: the target of every command, the id of the last sender. */
    var deviceId: DeviceId
    /** The parser closure fed by the serial port's data events. */
    const parser: SerialParser

    constructor ()
      ensures deviceId == BROADCAST && fresh(parser) && parser.serialData == []
    {
      deviceId := BROADCAST;
      parser := new SerialParser();
    }

    /** parseMessage: stores the sender's id first, whatever the frame says, then reports. */
    method ParseMessage(buffer: seq<byte>) returns (event: Option<Event>)
      requires |buffer| >= FRAME_LENGTH
      modifies this
      ensures Report(deviceId, event) == Interpret(buffer)
    {
      var report := Interpret(buffer);
      deviceId := report.deviceId;
      event := report.event;
    }

    /** The serial port's data handler: one delivery to the parser, and parseMessage on what it hands on. */
    method OnData(data: seq<byte>) returns (event: Option<Event>)
      modifies this, parser
      ensures var d := Step(old(parser.serialData), data);
        && parser.serialData == d.buffer
        && (d.handed.None? ==> event.None? && deviceId == old(deviceId))
        && (d.handed.Some? ==> |d.handed.value| >= FRAME_LENGTH && Report(deviceId, event) == Interpret(d.handed.value))
    {
      var handed := parser.Feed(data);
      if handed.Some? {
        event := ParseMessage(handed.value);
      } else {
        event := None;
      }
    }

    /**
     * The input handler: sends the frame of the named command to the
     * current device id, then always asks the current device id for its
     * firmware version.
     */
    method HandleInput(msg: Message) returns (outcome: Outcome)
      ensures var command, parameter := Switch(CommandOf(msg)), ParameterOf(msg);
        && (outcome.Raised? <==> command.Some? && NeedsNumber(command.value) && parameter == Undefined)
        && (outcome.Unmodelled? <==>
              command.Some? && NeedsNumber(command.value) && parameter != Undefined && !InDomain(command.value, parameter))
        && (outcome.Sent? ==>
              && 1 <= |outcome.frames| <= 2
              && outcome.frames[|outcome.frames| - 1] == Encoder.CheckFirmwareVersion(deviceId)
              && (|outcome.frames| == 2 <==> command.Some?)
              && (|outcome.frames| == 2 ==> Decode(outcome.frames[0]) == Some(Requested(command.value, parameter, deviceId))))
    {
      var command := Switch(CommandOf(msg));
      var parameter := ParameterOf(msg);
      var first: seq<seq<byte>> := [];
      if command.Some? {
        if NeedsNumber(command.value) && parameter == Undefined {
          return Raised;
        } else if NeedsNumber(command.value) && !InDomain(command.value, parameter) {
          return Unmodelled;
        }
        first := [CommandFrame(command.value, parameter, deviceId)];
      }
      // In the default branch the source reports an error and sends nothing for the command.
      outcome := Sent(first + [Encoder.CheckFirmwareVersion(deviceId)]);
    }
  }

  /** The sensor's answer to setDataReportingMode echoes the mode it was asked for. */
  lemma ReportingModeEcho(mode: Value, target: DeviceId, sensor: DeviceId)
    ensures var q := Decode(Encoder.SetDataReportingMode(mode, target)).value;
      Interpret(AckReply(q.subCommand, q.operation, q.value, 0, sensor))
        == Report(sensor, Some(Info(if mode == Str("active") then ActiveMode else QueryMode, sensor)))
  {
    var q := Decode(Encoder.SetDataReportingMode(mode, target)).value;
    var r := AckReply(q.subCommand, q.operation, q.value, 0, sensor);
    assert r[2] == r[2..8][0] && r[4] == r[2..8][2];
  }

  /** The sensor's answer to setStatus echoes the sleep or work mode it was asked for. */
  lemma StatusEcho(mode: Value, target: DeviceId, sensor: DeviceId)
    ensures var q := Decode(Encoder.SetStatus(mode, target)).value;
      Interpret(AckReply(q.subCommand, q.operation, q.value, 0, sensor))
        == Report(sensor, Some(Info(if mode == Str("sleep") then SleepMode else WorkMode, sensor)))
  {
    var q := Decode(Encoder.SetStatus(mode, target)).value;
    var r := AckReply(q.subCommand, q.operation, q.value, 0, sensor);
    assert r[2] == r[2..8][0] && r[4] == r[2..8][2];
  }

  /**
   * The sensor's answer to setWorkingPeriod(n), for n below 256, reports
   * continuous mode for 0 and otherwise a sleep of n*60-30 seconds.
   */
  lemma WorkingPeriodEcho(period: nat, target: DeviceId, sensor: DeviceId)
    requires period < 256
    ensures var q := Decode(Encoder.SetWorkingPeriod(period, target)).value;
      var e := Interpret(AckReply(q.subCommand, q.operation, q.value, 0, sensor)).event;
      && (period == 0 ==> e == Some(Info(ContinuousMode, sensor)))
      && (period > 0 ==> e.Some? && e.value.info.Periodic?
                         && e.value.info.sleepMinutes * 60 + 30 == period * 60 - 30)
  {
    var q := Decode(Encoder.SetWorkingPeriod(period, target)).value;
    var r := AckReply(q.subCommand, q.operation, q.value, 0, sensor);
    assert r[2] == r[2..8][0] && r[4] == r[2..8][2];
  }

  /** A measurement frame: counts 0x0096 and 0x0050 from device 0x340A. */
  const SAMPLE: seq<byte> := [0xAA, 0xC0, 0x96, 0x00, 0x50, 0x00, 0x34, 0x0A, 0x24, 0xAB]

  /** The sample is read as 15.0 and 8.0 µg/m³ (counts 150 and 80) from sensor 0x340A. */
  lemma SampleReading()
    ensures Interpret(SAMPLE) == Report(0x340A, Some(Measurement(150, 80)))
  {
    assert SAMPLE[1] == MEASUREMENT;
    assert SenderId(SAMPLE) == 0x340A;
  }

  /** The sample is a well-formed response: its checksum 24 matches bytes 2 to 7. */
  lemma SampleIsResponse()
    ensures IsResponse(SAMPLE)
  {
    assert CheckCrc(SAMPLE);
  }

  /** The sample is accepted and handed on whole. */
  lemma SampleAccepted()
    ensures Step([], SAMPLE) == Delivery([], Some(SAMPLE))
  {
    SampleIsResponse();
    ResponseAfterNoise([], SAMPLE);
  }

  /** With checksum byte 0x2C the sample is rejected and its ten bytes dropped. */
  lemma CorruptedSampleDropped()
    ensures Step([], SAMPLE[8 := 0x2C]) == Delivery([], None)
  {
    var bad := SAMPLE[8 := 0x2C];
    assert [] + bad == bad;
    assert Align(bad) == bad;
    assert !CheckCrc(bad);
  }

  /**
   * Two bytes of noise other than 0xAA (such as 00 00), then the sample in a
   * second delivery: the noise is dropped and the sample is handed on.
   */
  lemma NoiseThenSample(noise: seq<byte>)
    requires |noise| == 2 && noise[0] != HEAD && noise[1] != HEAD
    ensures Run([], [noise, SAMPLE]) == Trace([], [SAMPLE])
  {
    SampleIsResponse();
    NoiseThenWhole(noise, SAMPLE);
  }
}
