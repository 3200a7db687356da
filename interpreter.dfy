/**
 * The firmware's behaviour as a function of its state: `validate_eeprom`,
 * `processCommand`, the line accumulator and the streaming report of `loop`.
 * The `Firmware` class is proved against these functions.
 *
 * Where the firmware leaves defined behaviour (a write before the start of
 * `sensors`, a read past the command buffer) or enters a loop that does not
 * end, the model stops with a `Stuck` outcome that names the reason, and the
 * state is the one reached at that point.
 */
module Interpreter {
  import opened Prelude
  import opened Max31855
  import opened Config
  import opened Command
  import opened Door
  import opened Telemetry

  /** Everything the firmware's behaviour depends on or produces. */
  datatype State = State(
    n: nat,                    // the number of channels
    ram: Ram,                  // the settings in RAM
    eeprom: seq<byte>,         // the EEPROM image
    readings: seq<Reading>,    // the last reading of each channel's driver
    buffer: seq<byte>,         // the command buffer
    index: nat,                // the command buffer index
    effects: seq<Effect>,      // the servo writes and delays so far
    output: seq<Token>)        // the serial output so far

  /** The shape every reachable state has. */
  predicate Valid(s: State)
  {
    && Fits(s.eeprom, s.n)
    && |s.ram.enabled| == s.n && |s.readings| == s.n
    && |s.buffer| == BufferSize && s.index < BufferSize
  }

  /** Why the model stops following the firmware. */
  datatype Stuck =
    | ChannelBelowZero     // `T E`/`T D` with a channel below 0 writes outside `sensors` and before the enable cells
    | ReadPastBuffer       // `strtol` or the space scan of `D C` reads past the command buffer
    | SweepNeverEnds       // a door loop whose condition holds for ever
    | SweepWraps           // a door loop whose position wraps past the `uint16_t` range

  datatype Outcome = Done | Stopped(reason: Stuck)

  /** The RAM settings agree with what the EEPROM image describes. */
  predicate InSync(s: State)
    requires Valid(s)
  {
    Restore(s.eeprom, s.n) == s.ram
  }

  /** The state at power-on, before `setup()`: static storage is zero, except the enable flags. */
  function PowerOn(n: nat, image: seq<byte>): (s: State)
    requires Fits(image, n)
    ensures Valid(s)
  {
    State(n, InitialRam(n), image, seq(n, i => ZeroReading), seq(BufferSize, i => 0), 0, [], [])
  }

  /** `validate_eeprom`: load the settings from a marked image, or write the defaults into an unmarked one. */
  function Validate(s: State): (r: State)
    requires Valid(s)
    ensures Valid(r)
  {
    if HasMarker(s.eeprom) then s.(ram := Restore(s.eeprom, s.n))
    else s.(eeprom := Initialize(s.eeprom, s.n))
  }

  /** The readings after `update()` on every enabled channel. */
  function Refresh(readings: seq<Reading>, enabled: seq<bool>, samples: seq<Sample>): (r: seq<Reading>)
    requires |readings| == |enabled| == |samples|
    ensures |r| == |readings|
    ensures forall i :: 0 <= i < |r| && !enabled[i] ==> r[i] == readings[i]
    ensures forall i :: 0 <= i < |r| && enabled[i] ==>
      r[i] == Decode(readings[i], Word(samples[i].frame), samples[i].now)
  {
    seq(|readings|, i requires 0 <= i < |readings| =>
      if enabled[i] then Decode(readings[i], Word(samples[i].frame), samples[i].now) else readings[i])
  }

  // ---------------------------------------------------------------------------
  // The commands

  /** `T E` (on) and `T D` (off). */
  function SetChannel(s: State, channel: int, on: bool): (r: (State, Outcome))
    requires Valid(s)
    ensures Valid(r.0) && r.0.n == s.n
    ensures r.0.buffer == s.buffer && r.0.index == s.index
  {
    if channel >= s.n then (s.(output := s.output + [Println("# Invalid channel number")]), Done)
    else if channel < 0 then (s, Stopped(ChannelBelowZero))
    else
      (s.(ram := s.ram.(enabled := s.ram.enabled[channel := on]),
          eeprom := s.eeprom[SensorEnabledOffset + channel := FlagByte(on)]), Done)
  }

  /** `T O`: update every enabled channel, then print the array of their records. */
  function OneShotCommand(s: State, samples: seq<Sample>): (r: State)
    requires Valid(s) && |samples| == s.n
    ensures Valid(r) && r.n == s.n
    ensures r.buffer == s.buffer && r.index == s.index
  {
    var readings := Refresh(s.readings, s.ram.enabled, samples);
    s.(readings := readings, output := s.output + OneShotReport(s.ram.enabled, readings))
  }

  /** Save the temperature streaming flag and the delay, as `T S` does after any state. */
  function SaveTemperatureStreaming(s: State): (r: State)
    requires Valid(s)
    ensures Valid(r) && r.n == s.n
    ensures r.buffer == s.buffer && r.index == s.index
  {
    s.(eeprom := Write16(s.eeprom[StreamTemperatureOffset(s.n) := FlagByte(s.ram.streamingTemperature)],
                         StreamingDelayOffset(s.n), s.ram.streamingDelay))
  }

  /** `T S`: state 0 stops temperature streaming, 1 starts it with a new delay, others are reported. */
  function StreamTemperatureCommand(s: State, state: int, interval: Option<int>): (r: (State, Outcome))
    requires Valid(s)
    ensures Valid(r.0) && r.0.n == s.n
    ensures r.0.buffer == s.buffer && r.0.index == s.index
  {
    if state == 0 then
      (SaveTemperatureStreaming(s.(ram := s.ram.(streamingTemperature := false))), Done)
    else if state == 1 then
      var started := s.(ram := s.ram.(streamingTemperature := true, streamingStatus := false));
      match interval
      case None => (started, Stopped(ReadPastBuffer))
      case Some(v) => (SaveTemperatureStreaming(started.(ram := started.ram.(streamingDelay := U16(v)))), Done)
    else
      var reported := s.(output := s.output + [Out("# Unknown state value: "), Out(SignedDecimal(state))]);
      (SaveTemperatureStreaming(reported), Done)
  }

  /** `D C`: the closed position from byte 4, the open position from the next space, both saved. */
  function CalibrateCommand(s: State, closed: Option<int>, open: Option<int>): (r: (State, Outcome))
    requires Valid(s)
    ensures Valid(r.0) && r.0.n == s.n
    ensures r.0.buffer == s.buffer && r.0.index == s.index
  {
    match closed
    case None => (s, Stopped(ReadPastBuffer))
    case Some(c) =>
      var withClosed := s.(ram := s.ram.(doorClosed := U16(c)));
      match open
      case None => (withClosed, Stopped(ReadPastBuffer))
      case Some(o) =>
        var ram := withClosed.ram.(doorOpen := U16(o));
        (s.(ram := ram,
            eeprom := Write16(Write16(s.eeprom, DoorClosedOffset(s.n), ram.doorClosed),
                              DoorOpenOffset(s.n), ram.doorOpen)), Done)
  }

  /** The outcome of a sweep that did not end normally. */
  function SweepStuck(e: End): Outcome
    requires e != Reached
  {
    if e == NeverEnds then Stopped(SweepNeverEnds) else Stopped(SweepWraps)
  }

  /** `D O`: unless the door is already open, sweep it open, then mark it open in RAM and in EEPROM. */
  function OpenDoorCommand(s: State, ms: Option<int>): (r: (State, Outcome))
    requires Valid(s)
    ensures Valid(r.0) && r.0.n == s.n
    ensures r.0.buffer == s.buffer && r.0.index == s.index
  {
    if s.ram.doorOpened then (s, Done)
    else
      match ms
      case None => (s, Stopped(ReadPastBuffer))
      case Some(m) =>
        var sweep := Door.Open(s.ram.doorClosed, s.ram.doorOpen, m);
        var moved := s.(effects := s.effects + sweep.trace);
        if sweep.end != Reached then (moved, SweepStuck(sweep.end))
        else
          (moved.(ram := moved.ram.(doorOpened := true),
                  eeprom := moved.eeprom[DoorIsOpenOffset(s.n) := 1]), Done)
  }

  /**
   * `D S`: if the door is open, sweep it shut and save it as closed. The RAM
   * flag is set to true again rather than cleared.
   */
  function ShutDoorCommand(s: State, ms: Option<int>): (r: (State, Outcome))
    requires Valid(s)
    ensures Valid(r.0) && r.0.n == s.n
    ensures r.0.buffer == s.buffer && r.0.index == s.index
  {
    if !s.ram.doorOpened then (s, Done)
    else
      match ms
      case None => (s, Stopped(ReadPastBuffer))
      case Some(m) =>
        var sweep := Door.Shut(s.ram.doorClosed, s.ram.doorOpen, m);
        var moved := s.(effects := s.effects + sweep.trace);
        if sweep.end != Reached then (moved, SweepStuck(sweep.end))
        else
          (moved.(ram := moved.ram.(doorOpened := true),
                  eeprom := moved.eeprom[DoorIsOpenOffset(s.n) := 0]), Done)
  }

  /** `S`: state 1 starts status streaming with a new delay, 0 stops it; the flag and delay are saved either way. */
  function StreamStatusCommand(s: State, state: byte, interval: Option<int>): (r: (State, Outcome))
    requires Valid(s)
    ensures Valid(r.0) && r.0.n == s.n
    ensures r.0.buffer == s.buffer && r.0.index == s.index
  {
    if state == 1 && interval.None? then (s, Stopped(ReadPastBuffer))
    else
      var ram :=
        if state == 1 then s.ram.(streamingDelay := U16(interval.value), streamingStatus := true, streamingTemperature := false)
        else if state == 0 then s.ram.(streamingStatus := false)
        else s.ram;
      (s.(ram := ram,
          eeprom := Write16(s.eeprom[StreamStatusOffset(s.n) := FlagByte(ram.streamingStatus)],
                            StreamingDelayOffset(s.n), ram.streamingDelay)), Done)
  }

  /** One decoded command, run against the state. */
  function Execute(s: State, cmd: Command, samples: seq<Sample>): (r: (State, Outcome))
    requires Valid(s) && |samples| == s.n
    ensures Valid(r.0) && r.0.n == s.n
    ensures r.0.buffer == s.buffer && r.0.index == s.index
  {
    match cmd
    case EnableChannel(c) => SetChannel(s, c, true)
    case DisableChannel(c) => SetChannel(s, c, false)
    case OneShot => (OneShotCommand(s, samples), Done)
    case StreamTemperature(state, interval) => StreamTemperatureCommand(s, state, interval)
    case Calibrate(closed, open) => CalibrateCommand(s, closed, open)
    case OpenDoor(ms) => OpenDoorCommand(s, ms)
    case ShutDoor(ms) => ShutDoorCommand(s, ms)
    case StreamStatus(state, interval) => StreamStatusCommand(s, state, interval)
    case NoCommand => (s, Done)
  }

  /** `processCommand`: decode the buffer and run the command; `samples` feeds any `update()` it makes. */
  function Process(s: State, samples: seq<Sample>): (r: (State, Outcome))
    requires Valid(s) && |samples| == s.n
    ensures Valid(r.0) && r.0.n == s.n
    ensures r.0.buffer == s.buffer && r.0.index == s.index
  {
    Execute(s, Parse(s.buffer), samples)
  }

  // ---------------------------------------------------------------------------
  // The main loop

  /** One received byte: store it, advance the index (wrapping at 16), and on a line feed run the command. */
  function Feed(s: State, c: byte, samples: seq<Sample>): (r: (State, Outcome))
    requires Valid(s) && |samples| == s.n
    ensures Valid(r.0) && r.0.n == s.n
  {
    var next := if s.index + 1 == BufferSize then 0 else s.index + 1;
    var stored := s.(buffer := s.buffer[s.index := c], index := next);
    if c == Newline then
      var (processed, o) := Process(stored, samples);
      (processed.(index := 0), o)
    else (stored, Done)
  }

  /** The receive loop of `loop`: every available byte fed in turn, until one stops the model. */
  function Drain(s: State, input: seq<byte>, samples: seq<seq<Sample>>): (r: (State, Outcome))
    requires Valid(s) && |samples| == |input|
    requires forall i :: 0 <= i < |input| ==> |samples[i]| == s.n
    ensures Valid(r.0) && r.0.n == s.n
    decreases |input|
  {
    if input == [] then (s, Done)
    else
      var (next, o) := Feed(s, input[0], samples[0]);
      if o.Stopped? then (next, o) else Drain(next, input[1..], samples[1..])
  }

  /** The streaming part of `loop`: while either kind of streaming is on, update, report, and wait. */
  function Stream(s: State, samples: seq<Sample>): (r: State)
    requires Valid(s) && |samples| == s.n
    ensures Valid(r) && r.n == s.n
  {
    if !s.ram.streamingStatus && !s.ram.streamingTemperature then s
    else
      var readings := Refresh(s.readings, s.ram.enabled, samples);
      s.(readings := readings,
         output := s.output + StreamReport(s.ram, readings),
         effects := s.effects + (if s.ram.streamingDelay > 0 then [Delay(s.ram.streamingDelay)] else []))
  }

  /** One pass of `loop`. */
  function Loop(s: State, input: seq<byte>, samples: seq<seq<Sample>>, streamSamples: seq<Sample>): (r: (State, Outcome))
    requires Valid(s) && |samples| == |input| && |streamSamples| == s.n
    requires forall i :: 0 <= i < |input| ==> |samples[i]| == s.n
    ensures Valid(r.0) && r.0.n == s.n
  {
    var (drained, o) := Drain(s, input, samples);
    if o.Stopped? then (drained, o) else (Stream(drained, streamSamples), Done)
  }
}
