/**
 * The firmware of `main.cpp` as it runs: the globals, the `sensors` table,
 * the EEPROM and the command buffer are the state of a `Board`, and each
 * routine changes that state in place, statement by statement.
 *
 * Every routine is proved against the function of the same name in
 * `Interpreter`: the abstract state after the call is that function of the
 * abstract state before it.
 */
module Firmware {
  import opened Prelude
  import opened Max31855
  import opened Config
  import opened Command
  import opened Door
  import opened Telemetry
  import opened Interpreter
  import Behaviour

  /** The chip select pin of channel i: 10 for channel 0 down to 3 for channel 7. */
  function ChipSelect(i: nat): (pin: i8)
    requires i < 8
    ensures 3 <= pin <= 10
  {
    10 - i
  }

  /** The drivers of the `sensors` table, one per channel, each newly made with its channel and pin. */
  method NewDrivers(n: nat) returns (ds: seq<Driver>)
    requires n <= 8
    ensures |ds| == n
    ensures forall i :: 0 <= i < n ==> fresh(ds[i])
    ensures forall i, j :: 0 <= i < j < n ==> ds[i] != ds[j]
    ensures forall i :: 0 <= i < n ==> ds[i].channel == i && ds[i].chipSelect == ChipSelect(i)
    ensures forall i :: 0 <= i < n ==> ds[i].Current() == ZeroReading
  {
    ds := [];
    while |ds| < n
      invariant |ds| <= n
      invariant forall i :: 0 <= i < |ds| ==> fresh(ds[i])
      invariant forall i, j :: 0 <= i < j < |ds| ==> ds[i] != ds[j]
      invariant forall i :: 0 <= i < |ds| ==> ds[i].channel == i && ds[i].chipSelect == ChipSelect(i)
      invariant forall i :: 0 <= i < |ds| ==> ds[i].Current() == ZeroReading
    {
      var d := new Driver(|ds|, ChipSelect(|ds|));
      ds := ds + [d];
    }
  }

  class Board {
    const n: nat                      // NUMBER_OF_SENSORS
    const sensors: seq<Driver>        // sensors[i].tc
    const enabled: array<bool>        // sensors[i].enabled
    const eeprom: array<byte>
    const buffer: array<byte>         // gCommandBuffer

    var streamingTemperature: bool    // gStreamingTemperatureEnabled
    var streamingStatus: bool         // gStreamingStatusEnabled
    var doorOpened: bool              // gDoorOpened
    var doorClosed: u16               // gDoorClosedPosition
    var doorOpen: u16                 // gDoorOpenPosition
    var streamingDelay: u16           // gStreamingDelay
    var bufferIndex: nat              // gCommandBufferIndex

    var effects: seq<Effect>          // the servo writes and delays made so far
    var output: seq<Token>            // the serial output so far

    ghost predicate Valid()
      reads this`bufferIndex
    {
      && ChannelCount(n) && |sensors| == n && enabled.Length == n
      && eeprom.Length >= ImageSize(n)
      && buffer.Length == BufferSize && bufferIndex < BufferSize
      && eeprom != buffer
      && (forall i, j :: 0 <= i < j < n ==> sensors[i] != sensors[j])
      && (forall i :: 0 <= i < n ==> sensors[i].channel == i)
    }

    /** The settings in RAM. */
    function Ram(): Ram
      reads this`streamingTemperature, this`streamingStatus, this`streamingDelay,
            this`doorClosed, this`doorOpen, this`doorOpened, enabled
    {
      Config.Ram(enabled[..], streamingTemperature, streamingStatus, streamingDelay,
                 doorClosed, doorOpen, doorOpened)
    }

    /** The last reading of each channel's driver. */
    function Readings(): (rs: seq<Reading>)
      reads sensors
      ensures |rs| == |sensors|
    {
      seq(|sensors|, i requires 0 <= i < |sensors| reads sensors => sensors[i].Current())
    }

    /** The whole state, as the functions of `Interpreter` see it. */
    function Abs(): State
      reads this, enabled, eeprom, buffer, sensors
    {
      State(n, Ram(), eeprom[..], Readings(), buffer[..], bufferIndex, effects, output)
    }

    /** Power-on: the static initialisers, before `setup()`; the EEPROM holds `image`. */
    constructor (n: nat, image: seq<byte>)
      requires Fits(image, n)
      ensures Valid() && Abs() == PowerOn(n, image)
      ensures fresh(enabled) && fresh(eeprom) && fresh(buffer)
    {
      var ds := NewDrivers(n);
      this.n := n;
      sensors := ds;
      enabled := new bool[n](i => true);
      eeprom := new byte[|image|](i requires 0 <= i < |image| => image[i]);
      buffer := new byte[BufferSize](i => 0);
      streamingTemperature, streamingStatus, doorOpened := false, false, false;
      doorClosed, doorOpen, streamingDelay := 0, 0, 0;
      bufferIndex := 0;
      effects, output := [], [];
      new;
      assert enabled[..] == seq(n, i => true);
      assert eeprom[..] == image;
      assert buffer[..] == seq(BufferSize, i => 0);
      assert Readings() == seq(n, i => ZeroReading);
    }

    // -------------------------------------------------------------------------
    // validate_eeprom

    /** `validate_eeprom`. */
    method ValidateEeprom()
      requires Valid()
      modifies this, enabled, eeprom
      ensures Valid() && Abs() == Validate(old(Abs()))
    {
      if eeprom[0] == 0x0B && eeprom[1] == 0x0E && eeprom[2] == 0x0E && eeprom[3] == 0x0F {
        LoadSettings();
      } else {
        SaveDefaults();
      }
    }

    /** The marked branch: every setting read back from its cells. */
    method LoadSettings()
      requires Valid() && HasMarker(eeprom[..])
      modifies enabled, this`streamingTemperature, this`streamingStatus, this`doorClosed, this`doorOpen,
        this`streamingDelay, this`doorOpened
      ensures Ram() == Restore(eeprom[..], n)
    {
      var i := 0;
      while i < n
        modifies enabled
        invariant 0 <= i <= n
        invariant forall j :: 0 <= j < i ==> enabled[j] == (eeprom[SensorEnabledOffset + j] == 1)
      {
        enabled[i] := eeprom[SensorEnabledOffset + i] == 1;
        i := i + 1;
      }
      streamingTemperature := eeprom[StreamTemperatureOffset(n)] == 1;
      streamingStatus := eeprom[StreamStatusOffset(n)] == 1;
      doorClosed := Cell16(DoorClosedOffset(n));
      doorOpen := Cell16(DoorOpenOffset(n));
      streamingDelay := Cell16(StreamingDelayOffset(n));
      doorOpened := eeprom[DoorIsOpenOffset(n)] == 1;
      forall j | 0 <= j < n
        ensures enabled[..][j] == Restore(eeprom[..], n).enabled[j]
      {
        assert enabled[j] == (eeprom[SensorEnabledOffset + j] == 1);
        assert eeprom[..][SensorEnabledOffset + j] == eeprom[SensorEnabledOffset + j];
        assert FlagOf(eeprom[SensorEnabledOffset + j]) == enabled[j];
        RestoreEnabled(eeprom[..], n, j);
        assert enabled[..][j] == enabled[j];
      }
    }

    /** `(EEPROM.read(addr + 1) << 8) | EEPROM.read(addr)`. */
    method Cell16(addr: nat) returns (v: u16)
      requires addr + 1 < eeprom.Length
      ensures v == Read16(eeprom[..], addr)
    {
      var high: int := eeprom[addr + 1];
      var low: int := eeprom[addr];
      v := high * 0x100 + low;
    }

    /** The unmarked branch: the marker and every default written, RAM left alone. */
    method SaveDefaults()
      requires Valid()
      modifies eeprom
      ensures eeprom[..] == Initialize(old(eeprom[..]), n)
    {
      eeprom[0], eeprom[1], eeprom[2], eeprom[3] := 0x0B, 0x0E, 0x0E, 0x0F;
      EnableAllCells();
      WriteSettingCells();
      ghost var was := old(eeprom[..]);
      InitializeCells(was, n);
      var r := Initialize(was, n);
      LayoutOffsets(n);
      forall j | 0 <= j < eeprom.Length
        ensures eeprom[j] == r[j]
      {
        if j >= ImageSize(n) {
          assert r[j] == r[ImageSize(n)..][j - ImageSize(n)] == was[ImageSize(n)..][j - ImageSize(n)];
        }
      }
    }

    /** The remaining writes of the unmarked branch: both streaming flags, the delay, both positions, the door flag. */
    method WriteSettingCells()
      requires Valid()
      modifies eeprom
      ensures eeprom[4 + n] == 0 && eeprom[5 + n] == 0
      ensures eeprom[6 + n] == 0xF4 && eeprom[7 + n] == 0x01
      ensures eeprom[8 + n] == 0 && eeprom[9 + n] == 0
      ensures eeprom[10 + n] == 0x68 && eeprom[11 + n] == 0x01
      ensures eeprom[12 + n] == 0
      ensures forall j :: 0 <= j < eeprom.Length && !(4 + n <= j < 13 + n) ==> eeprom[j] == old(eeprom[j])
    {
      LayoutOffsets(n);
      eeprom[StreamTemperatureOffset(n)] := 0;
      eeprom[StreamStatusOffset(n)] := 0;
      eeprom[DoorClosedOffset(n)] := 0;
      eeprom[DoorClosedOffset(n) + 1] := 0;
      eeprom[DoorOpenOffset(n)] := LowByte(DefaultDoorOpenPosition);
      eeprom[DoorOpenOffset(n) + 1] := HighByte(DefaultDoorOpenPosition);
      eeprom[StreamingDelayOffset(n)] := LowByte(DefaultStreamingDelay);
      eeprom[StreamingDelayOffset(n) + 1] := HighByte(DefaultStreamingDelay);
      eeprom[DoorIsOpenOffset(n)] := 0;
    }

    /** The enable loop of the unmarked branch: every channel's cell set to 1. */
    method EnableAllCells()
      requires Valid()
      modifies eeprom
      ensures forall k :: SensorEnabledOffset <= k < SensorEnabledOffset + n ==> eeprom[k] == 1
      ensures forall j :: 0 <= j < eeprom.Length && !(SensorEnabledOffset <= j < SensorEnabledOffset + n) ==>
        eeprom[j] == old(eeprom[j])
    {
      var i := 0;
      while i < n
        invariant 0 <= i <= n
        invariant forall k :: SensorEnabledOffset <= k < SensorEnabledOffset + i ==> eeprom[k] == 1
        invariant forall j :: 0 <= j < eeprom.Length && !(SensorEnabledOffset <= j < SensorEnabledOffset + i) ==>
          eeprom[j] == old(eeprom[j])
      {
        eeprom[SensorEnabledOffset + i] := 1;
        i := i + 1;
      }
    }

    // -------------------------------------------------------------------------
    // Sensors and the temperature array

    /** `update()` on every enabled channel's driver, in channel order. */
    method RefreshSensors(samples: seq<Sample>)
      requires Valid() && |samples| == n
      modifies sensors
      ensures Readings() == Refresh(old(Readings()), enabled[..], samples)
    {
      var i := 0;
      while i < n
        invariant 0 <= i <= n
        invariant forall j :: 0 <= j < n ==>
          sensors[j].Current() == if j < i && enabled[j]
            then Decode(old(sensors[j].Current()), Word(samples[j].frame), samples[j].now)
            else old(sensors[j].Current())
      {
        if enabled[i] {
          sensors[i].Update(samples[i].frame, samples[i].now);
        }
        i := i + 1;
      }
    }

    /** The print loop: each enabled channel's record, with a comma before all but the first. */
    method PrintRecords()
      requires Valid()
      modifies this`output
      ensures output == old(output) + PrintLoop(enabled[..], Readings(), n)
    {
      ghost var en, rs := enabled[..], Readings();
      var printed := false;
      var i := 0;
      while i < n
        invariant 0 <= i <= n
        invariant output == old(output) + PrintLoop(en, rs, i)
        invariant printed <==> Enabled(en, i) != []
      {
        ghost var before := output;
        assert en[i] == enabled[i] && rs[i] == sensors[i].Current();
        assert Enabled(en, i + 1) == Enabled(en, i) + (if en[i] then [i] else []);
        if enabled[i] {
          if printed {
            output := output + [Comma];
          }
          output := output + [Record(i, sensors[i].Current())];
          printed := true;
        }
        assert output == before + (if !en[i] then []
          else (if Enabled(en, i) != [] then [Comma] else []) + [Record(i, rs[i])]);
        i := i + 1;
      }
    }

    // -------------------------------------------------------------------------
    // The commands

    /** `T E` (on) and `T D` (off) on the channel `buf[3] - '0'`. */
    method SetChannel(channel: int, on: bool) returns (o: Outcome)
      requires Valid()
      modifies this`output, enabled, eeprom
      ensures Valid() && (Abs(), o) == Interpreter.SetChannel(old(Abs()), channel, on)
    {
      if channel >= n {
        output := output + [Println("# Invalid channel number")];
        return Done;
      }
      if channel < 0 {
        return Stopped(ChannelBelowZero);        // sensors[channel] is outside the table
      }
      enabled[channel] := on;
      eeprom[SensorEnabledOffset + channel] := if on then 1 else 0;
      return Done;
    }

    /** `T O`. */
    method OneShot(samples: seq<Sample>)
      requires Valid() && |samples| == n
      modifies this`output, sensors
      ensures Valid() && Abs() == OneShotCommand(old(Abs()), samples)
    {
      ghost var s := Abs();
      RefreshSensors(samples);
      assert Abs() == s.(readings := Readings());
      PrintOneShot();
    }

    /** The report of `T O`: the channel array of the current readings. */
    method PrintOneShot()
      requires Valid()
      modifies this`output
      ensures Abs() == old(Abs()).(output := old(output) + OneShotReport(enabled[..], Readings()))
    {
      ghost var s := Abs();
      output := output + [Out(ArrayOpen)];
      PrintRecords();
      output := output + [Println("]}")];
      assert output == s.output + OneShotReport(enabled[..], Readings());
    }

    /** Saves the temperature streaming flag and the delay, low byte first. */
    method SaveTemperatureStreaming()
      requires Valid()
      modifies eeprom
      ensures Abs() == Interpreter.SaveTemperatureStreaming(old(Abs()))
    {
      eeprom[StreamTemperatureOffset(n)] := if streamingTemperature then 1 else 0;
      eeprom[StreamingDelayOffset(n)] := LowByte(streamingDelay);
      eeprom[StreamingDelayOffset(n) + 1] := HighByte(streamingDelay);
    }

    /** `T S` with the state `buf[3] - '0'`; the delay is read from byte 4 when the state is 1. */
    method StreamTemperature(state: int) returns (o: Outcome)
      requires Valid()
      modifies this`streamingTemperature, this`streamingStatus, this`streamingDelay, this`output, eeprom
      ensures Valid() && (Abs(), o) == StreamTemperatureCommand(old(Abs()), state, StrToL(old(buffer[..]), 4))
    {
      if state == 1 {
        o := StartTemperatureStreaming();
      } else {
        ghost var s := Abs();
        if state == 0 {
          streamingTemperature := false;
          assert Abs() == s.(ram := s.ram.(streamingTemperature := false));
        } else {
          output := output + [Out("# Unknown state value: "), Out(SignedDecimal(state))];
          assert Abs() == s.(output := s.output + [Out("# Unknown state value: "), Out(SignedDecimal(state))]);
        }
        SaveTemperatureStreaming();
        o := Done;
      }
    }

    /** `T S 1`: temperature streaming on, status streaming off, the delay from byte 4. */
    method StartTemperatureStreaming() returns (o: Outcome)
      requires Valid()
      modifies this`streamingTemperature, this`streamingStatus, this`streamingDelay, eeprom
      ensures Valid() && (Abs(), o) == StreamTemperatureCommand(old(Abs()), 1, StrToL(old(buffer[..]), 4))
    {
      ghost var s := Abs();
      streamingTemperature := true;
      streamingStatus := false;
      var delay := StrToL(buffer[..], 4);
      if delay.None? {
        assert Abs() == s.(ram := s.ram.(streamingTemperature := true, streamingStatus := false));
        return Stopped(ReadPastBuffer);
      }
      streamingDelay := U16(delay.value);
      assert Abs() == s.(ram := s.ram.(streamingTemperature := true, streamingStatus := false,
                                       streamingDelay := U16(delay.value)));
      SaveTemperatureStreaming();
      return Done;
    }

    /**
     * The space scan of `D C`: the first space from byte 4 on. The firmware's
     * scan has no bound; None when it would run past the buffer.
     */
    method ScanForSpace() returns (at: Option<nat>)
      requires Valid()
      ensures at == FindSpace(buffer[..], 4)
    {
      var idx := 4;
      while idx < BufferSize && buffer[idx] != Space
        invariant 4 <= idx <= BufferSize
        invariant FindSpace(buffer[..], idx) == FindSpace(buffer[..], 4)
      {
        idx := idx + 1;
      }
      if idx == BufferSize {
        return None;
      }
      return Some(idx);
    }

    /** Saves both door positions, low byte first. */
    method SavePositions()
      requires Valid()
      modifies eeprom
      ensures eeprom[..] == Write16(Write16(old(eeprom[..]), DoorClosedOffset(n), doorClosed), DoorOpenOffset(n), doorOpen)
    {
      eeprom[DoorClosedOffset(n)] := LowByte(doorClosed);
      eeprom[DoorClosedOffset(n) + 1] := HighByte(doorClosed);
      eeprom[DoorOpenOffset(n)] := LowByte(doorOpen);
      eeprom[DoorOpenOffset(n) + 1] := HighByte(doorOpen);
    }

    /** `D C`: the closed position from byte 4, the open position from the next space, both saved. */
    method Calibrate() returns (o: Outcome)
      requires Valid()
      modifies this`doorClosed, this`doorOpen, eeprom
      ensures Valid()
      ensures (Abs(), o) == CalibrateCommand(old(Abs()), StrToL(old(buffer[..]), 4), OpenPosition(old(buffer[..])))
    {
      var closed := StrToL(buffer[..], 4);
      if closed.None? {
        return Stopped(ReadPastBuffer);
      }
      SetClosed(U16(closed.value));
      o := CalibrateOpen();
    }

    /** The closed position of `D C`, set in RAM only. */
    method SetClosed(closed: u16)
      requires Valid()
      modifies this`doorClosed
      ensures Valid() && Abs() == old(Abs()).(ram := old(Ram()).(doorClosed := closed))
    {
      ghost var s := Abs();
      doorClosed := closed;
      assert Readings() == s.readings && buffer[..] == s.buffer && enabled[..] == s.ram.enabled;
    }

    /** The second half of `D C`, once the closed position is set: the open position, then the save. */
    method CalibrateOpen() returns (o: Outcome)
      requires Valid()
      modifies this`doorOpen, eeprom
      ensures Valid()
      ensures o == Done <==> OpenPosition(buffer[..]).Some?
      ensures o != Done ==> o == Stopped(ReadPastBuffer) && Abs() == old(Abs())
      ensures o == Done ==>
        Abs() == old(Abs()).(ram := old(Ram()).(doorOpen := U16(OpenPosition(buffer[..]).value)),
                             eeprom := Write16(Write16(old(eeprom[..]), DoorClosedOffset(n), doorClosed),
                                               DoorOpenOffset(n), U16(OpenPosition(buffer[..]).value)))
    {
      var at := ScanForSpace();
      if at.None? {
        return Stopped(ReadPastBuffer);
      }
      var open := StrToL(buffer[..], at.value);
      if open.None? {
        return Stopped(ReadPastBuffer);
      }
      SetOpenAndSave(U16(open.value));
      return Done;
    }

    /** The open position of `D C` set in RAM, then both positions saved. */
    method SetOpenAndSave(open: u16)
      requires Valid()
      modifies this`doorOpen, eeprom
      ensures Valid()
      ensures Abs() == old(Abs()).(ram := old(Ram()).(doorOpen := open),
                                   eeprom := Write16(Write16(old(eeprom[..]), DoorClosedOffset(n), doorClosed),
                                                     DoorOpenOffset(n), open))
    {
      ghost var s := Abs();
      doorOpen := open;
      SavePositions();
      assert Readings() == s.readings && buffer[..] == s.buffer && enabled[..] == s.ram.enabled;
    }

    /**
     * The opening loop, `for (pos = closed; pos <= open; pos += step)`, with
     * a write and a pause per position, followed up to the first wrap of `pos`.
     */
    method ClimbLoop(step: u16, pause: int) returns (end: End)
      requires step > 0 || doorClosed > doorOpen
      modifies this`effects
      ensures var run := Climb(doorClosed, doorOpen, step);
        end == run.end && effects == old(effects) + Pace(run.positions, pause)
    {
      var pos: u16 := doorClosed;
      while pos <= doorOpen
        invariant doorClosed <= pos
        invariant var rest := Climb(pos, doorOpen, step); var run := Climb(doorClosed, doorOpen, step);
          rest.end == run.end && effects + Pace(rest.positions, pause) == old(effects) + Pace(run.positions, pause)
        decreases 0x1_0000 - pos
      {
        ghost var rest := Climb(pos, doorOpen, step);
        assert Pace(rest.positions, pause) == [Write(pos), Delay(ULong(pause))] + Pace(rest.positions[1..], pause);
        effects := effects + [Write(pos), Delay(ULong(pause))];
        if pos + step > 0xFFFF {
          return Wraps;                          // pos += step wraps past 65535
        }
        assert rest.positions[1..] == Climb(pos + step, doorOpen, step).positions;
        pos := pos + step;
      }
      return Reached;
    }

    /**
     * The closing loop, `for (pos = open; pos >= closed; pos -= step)`, with
     * a write and a pause per position, followed up to the first wrap of `pos`.
     */
    method DescendLoop(step: u16, pause: int) returns (end: End)
      requires step > 0 || doorOpen < doorClosed
      modifies this`effects
      ensures var run := Descend(doorOpen, doorClosed, step);
        end == run.end && effects == old(effects) + Pace(run.positions, pause)
    {
      var pos: u16 := doorOpen;
      while pos >= doorClosed
        invariant pos <= doorOpen
        invariant var rest := Descend(pos, doorClosed, step); var run := Descend(doorOpen, doorClosed, step);
          rest.end == run.end && effects + Pace(rest.positions, pause) == old(effects) + Pace(run.positions, pause)
        decreases pos
      {
        ghost var rest := Descend(pos, doorClosed, step);
        assert Pace(rest.positions, pause) == [Write(pos), Delay(ULong(pause))] + Pace(rest.positions[1..], pause);
        effects := effects + [Write(pos), Delay(ULong(pause))];
        if pos < step {
          return Wraps;                          // pos -= step wraps below 0
        }
        assert rest.positions[1..] == Descend(pos - step, doorClosed, step).positions;
        pos := pos - step;
      }
      return Reached;
    }

    /** `D O`: unless the door is open, sweep it open over `strtol(buf + 3)` ms and save it as open. */
    method OpenDoor() returns (o: Outcome)
      requires Valid()
      modifies this`effects, this`doorOpened, eeprom
      ensures Valid() && (Abs(), o) == OpenDoorCommand(old(Abs()), StrToL(old(buffer[..]), 3))
    {
      if doorOpened {
        return Done;                             // already flagged open: nothing to do
      }
      var ms := StrToL(buffer[..], 3);
      if ms.None? {
        return Stopped(ReadPastBuffer);
      }
      o := OpenSweep(ms.value);
    }

    /** The sweep of `D O` over `ms` milliseconds, with the door shut. */
    method OpenSweep(ms: int) returns (o: Outcome)
      requires Valid() && !doorOpened
      modifies this`effects, this`doorOpened, eeprom
      ensures Valid() && (Abs(), o) == OpenDoorCommand(old(Abs()), Some(ms))
    {
      ghost var s := Abs();
      var pause := Pause(ms);
      var step := Step(doorClosed, doorOpen);
      if doorClosed <= doorOpen && step == 0 {
        assert Door.Open(doorClosed, doorOpen, ms) == Sweep([], NeverEnds);
        assert Abs() == s.(effects := s.effects + []);
        return Stopped(SweepNeverEnds);          // pos += 0 stays at most open
      }
      var end := ClimbLoop(step, pause);
      ghost var trace := Pace(Climb(doorClosed, doorOpen, step).positions, pause);
      assert Abs() == s.(effects := s.effects + trace);
      if end != Reached {
        return SweepStuck(end);
      }
      EndSweep(doorOpen, 1);
      assert s.effects + trace + [Write(doorOpen)] == s.effects + (trace + [Write(doorOpen)]);
      return Done;
    }

    /** The end of a sweep: the last write, the door marked open in RAM, and `cell` saved as its open flag. */
    method EndSweep(last: u16, cell: byte)
      requires Valid()
      modifies this`effects, this`doorOpened, eeprom
      ensures Valid()
      ensures Abs() == old(Abs()).(effects := old(effects) + [Write(last)], ram := old(Ram()).(doorOpened := true),
                                   eeprom := old(eeprom[..])[DoorIsOpenOffset(n) := cell])
    {
      ghost var s := Abs();
      effects := effects + [Write(last)];
      doorOpened := true;
      eeprom[DoorIsOpenOffset(n)] := cell;
      assert Readings() == s.readings && buffer[..] == s.buffer && enabled[..] == s.ram.enabled;
    }

    /** `D S`: if the door is open, sweep it shut over `strtol(buf + 3)` ms and save it as shut. */
    method ShutDoor() returns (o: Outcome)
      requires Valid()
      modifies this`effects, this`doorOpened, eeprom
      ensures Valid() && (Abs(), o) == ShutDoorCommand(old(Abs()), StrToL(old(buffer[..]), 3))
    {
      if !doorOpened {
        return Done;                             // not flagged open: nothing to do
      }
      var ms := StrToL(buffer[..], 3);
      if ms.None? {
        return Stopped(ReadPastBuffer);
      }
      o := ShutSweep(ms.value);
    }

    /** The sweep of `D S` over `ms` milliseconds, with the door open. */
    method ShutSweep(ms: int) returns (o: Outcome)
      requires Valid() && doorOpened
      modifies this`effects, this`doorOpened, eeprom
      ensures Valid() && (Abs(), o) == ShutDoorCommand(old(Abs()), Some(ms))
    {
      ghost var s := Abs();
      var pause := Pause(ms);
      var step := Step(doorClosed, doorOpen);
      if doorClosed <= doorOpen && (step == 0 || doorClosed == 0) {
        assert Door.Shut(doorClosed, doorOpen, ms) == Sweep([], NeverEnds);
        assert Abs() == s.(effects := s.effects + []);
        return Stopped(SweepNeverEnds);          // pos stays at least closed for ever
      }
      var end := DescendLoop(step, pause);
      ghost var trace := Pace(Descend(doorOpen, doorClosed, step).positions, pause);
      assert Abs() == s.(effects := s.effects + trace);
      if end != Reached {
        return SweepStuck(end);
      }
      EndSweep(doorClosed, 0);
      assert s.effects + trace + [Write(doorClosed)] == s.effects + (trace + [Write(doorClosed)]);
      return Done;
    }

    /** `S` with the state `(uint8_t)(buf[3] - '0')`; the delay is read from byte 4 when the state is 1. */
    method StreamStatus(state: byte) returns (o: Outcome)
      requires Valid()
      modifies this`streamingTemperature, this`streamingStatus, this`streamingDelay, eeprom
      ensures Valid() && (Abs(), o) == StreamStatusCommand(old(Abs()), state, StrToL(old(buffer[..]), 4))
    {
      if state == 1 {
        var delay := StrToL(buffer[..], 4);
        if delay.None? {
          return Stopped(ReadPastBuffer);
        }
        StartStatusStreaming(U16(delay.value));
      } else if state == 0 {
        StopStatusStreaming();
      } else {
        ghost var s := Abs();
        SaveStatusStreaming();
        assert Abs() == s.(eeprom := eeprom[..]);
      }
      return Done;
    }

    /** `S 1`: status streaming on at the given interval, temperature streaming off, then the save. */
    method StartStatusStreaming(delay: u16)
      requires Valid()
      modifies this`streamingTemperature, this`streamingStatus, this`streamingDelay, eeprom
      ensures Valid()
      ensures Abs() == old(Abs()).(ram := old(Ram()).(streamingDelay := delay, streamingStatus := true, streamingTemperature := false),
                                   eeprom := Write16(old(eeprom[..])[StreamStatusOffset(n) := 1], StreamingDelayOffset(n), delay))
    {
      ghost var s := Abs();
      streamingDelay := delay;
      streamingStatus := true;
      streamingTemperature := false;
      SaveStatusStreaming();
      assert Readings() == s.readings && buffer[..] == s.buffer && enabled[..] == s.ram.enabled;
    }

    /** `S 0`: status streaming off, then the save. */
    method StopStatusStreaming()
      requires Valid()
      modifies this`streamingStatus, eeprom
      ensures Valid()
      ensures Abs() == old(Abs()).(ram := old(Ram()).(streamingStatus := false),
                                   eeprom := Write16(old(eeprom[..])[StreamStatusOffset(n) := 0], StreamingDelayOffset(n), streamingDelay))
    {
      ghost var s := Abs();
      streamingStatus := false;
      SaveStatusStreaming();
      assert Readings() == s.readings && buffer[..] == s.buffer && enabled[..] == s.ram.enabled;
    }

    /** The save at the end of `S`: the status flag, then the delay, low byte first. */
    method SaveStatusStreaming()
      requires Valid()
      modifies eeprom
      ensures eeprom[..] == Write16(old(eeprom[..])[StreamStatusOffset(n) := FlagByte(streamingStatus)],
                                    StreamingDelayOffset(n), streamingDelay)
    {
      eeprom[StreamStatusOffset(n)] := if streamingStatus then 1 else 0;
      eeprom[StreamingDelayOffset(n)] := LowByte(streamingDelay);
      eeprom[StreamingDelayOffset(n) + 1] := HighByte(streamingDelay);
    }

    /** `processCommand`: the family from byte 0, the sub-command from byte 2. */
    method ProcessCommand(samples: seq<Sample>) returns (o: Outcome)
      requires Valid() && |samples| == n
      modifies this, enabled, eeprom, sensors
      ensures Valid() && (Abs(), o) == Process(old(Abs()), samples)
    {
      var family := buffer[0];
      if family == 'T' as byte {
        o := ProcessTemperature(samples);
      } else if family == 'D' as byte {
        o := ProcessDoor(samples);
      } else if family == 'S' as byte {
        ghost var s := Abs();
        assert Parse(s.buffer) == Command.StreamStatus((buffer[3] - Zero) % 0x100, StrToL(buffer[..], 4));
        o := StreamStatus((buffer[3] - Zero) % 0x100);
      } else {
        o := Done;
      }
    }

    /** The `T` family of `processCommand`. */
    method ProcessTemperature(samples: seq<Sample>) returns (o: Outcome)
      requires Valid() && |samples| == n && buffer[0] == 'T' as byte
      modifies this`output, this`streamingTemperature, this`streamingStatus, this`streamingDelay, enabled, eeprom, sensors
      ensures Valid() && (Abs(), o) == Process(old(Abs()), samples)
    {
      ghost var s := Abs();
      var sub := buffer[2];
      o := Done;
      if sub == 'E' as byte {
        assert Parse(s.buffer) == EnableChannel(SignedChar(buffer[3]) - Zero);
        o := SetChannel(SignedChar(buffer[3]) - Zero, true);
      } else if sub == 'D' as byte {
        assert Parse(s.buffer) == DisableChannel(SignedChar(buffer[3]) - Zero);
        o := SetChannel(SignedChar(buffer[3]) - Zero, false);
      } else if sub == 'O' as byte {
        assert Parse(s.buffer) == Command.OneShot;
        OneShot(samples);
      } else if sub == 'S' as byte {
        assert Parse(s.buffer) == Command.StreamTemperature(SignedChar(buffer[3]) - Zero, StrToL(buffer[..], 4));
        o := StreamTemperature(SignedChar(buffer[3]) - Zero);
      } else {
        assert Parse(s.buffer) == NoCommand;
      }
    }

    /** The `D` family of `processCommand`. */
    method ProcessDoor(ghost samples: seq<Sample>) returns (o: Outcome)
      requires Valid() && |samples| == n && buffer[0] == 'D' as byte
      modifies this`effects, this`doorOpened, this`doorClosed, this`doorOpen, eeprom
      ensures Valid() && (Abs(), o) == Process(old(Abs()), samples)
    {
      ghost var s := Abs();
      var sub := buffer[2];
      o := Done;
      if sub == 'C' as byte {
        assert Process(s, samples) == CalibrateCommand(s, StrToL(buffer[..], 4), OpenPosition(buffer[..]));
        o := Calibrate();
      } else if sub == 'O' as byte {
        assert Process(s, samples) == OpenDoorCommand(s, StrToL(buffer[..], 3));
        o := OpenDoor();
      } else if sub == 'S' as byte {
        assert Process(s, samples) == ShutDoorCommand(s, StrToL(buffer[..], 3));
        o := ShutDoor();
      } else {
        assert Parse(s.buffer) == NoCommand;
      }
    }

    /** One received byte, as the receive loop of `loop` handles it. */
    method Receive(c: byte, samples: seq<Sample>) returns (o: Outcome)
      requires Valid() && |samples| == n
      modifies this, enabled, eeprom, buffer, sensors
      ensures Valid() && (Abs(), o) == Feed(old(Abs()), c, samples)
    {
      ghost var s := Abs();
      buffer[bufferIndex] := c;
      bufferIndex := bufferIndex + 1;
      if bufferIndex == BufferSize {
        bufferIndex := 0;
      }
      ghost var stored := s.(buffer := s.buffer[s.index := c], index := bufferIndex);
      assert buffer[..] == s.buffer[s.index := c];
      assert Abs() == stored;
      o := Done;
      if c == Newline {
        o := ProcessCommand(samples);
        bufferIndex := 0;
      }
    }

    /** The receive loop of `loop`: every available byte in turn, until the model stops. */
    method ReceiveAll(input: seq<byte>, samples: seq<seq<Sample>>) returns (o: Outcome)
      requires Valid() && |samples| == |input|
      requires forall i :: 0 <= i < |input| ==> |samples[i]| == n
      modifies this, enabled, eeprom, buffer, sensors
      ensures Valid() && (Abs(), o) == Drain(old(Abs()), input, samples)
    {
      ghost var s := Abs();
      o := Done;
      var i := 0;
      while i < |input| && o == Done
        invariant 0 <= i <= |input|
        invariant Valid()
        invariant o == Done ==> Drain(s, input, samples) == Drain(Abs(), input[i..], samples[i..])
        invariant o.Stopped? ==> Drain(s, input, samples) == (Abs(), o)
      {
        ghost var rest, later := input[i..], samples[i..];
        assert rest[0] == input[i] && rest[1..] == input[i + 1..];
        assert later[0] == samples[i] && later[1..] == samples[i + 1..];
        o := Receive(input[i], samples[i]);
        i := i + 1;
      }
      if o == Done {
        assert input[i..] == [];
      }
    }

    /** The streaming part of `loop`. */
    method Stream(samples: seq<Sample>)
      requires Valid() && |samples| == n
      modifies this`output, this`effects, sensors
      ensures Valid() && Abs() == Interpreter.Stream(old(Abs()), samples)
    {
      ghost var s := Abs();
      if streamingStatus || streamingTemperature {
        RefreshSensors(samples);
        PrintReport();
        if streamingDelay > 0 {
          effects := effects + [Delay(streamingDelay)];
        }
        assert Abs() == s.(readings := Readings(), output := output, effects := effects);
      }
    }

    /** Printing the pieces of a report one after the other appends the whole report. */
    static lemma ReportAppend(t: seq<Token>, a: seq<Token>, b: seq<Token>, c: seq<Token>, d: seq<Token>, e: seq<Token>)
      ensures t + a + b + c + d + e == t + (a + b + c + d + e)
    {
    }

    /** The report of one streaming pass. */
    method PrintReport()
      requires Valid()
      modifies this`output
      ensures output == old(output) + StreamReport(Ram(), Readings())
    {
      StreamReportShape(Ram(), Readings());
      ghost var records := PrintLoop(enabled[..], Readings(), n);
      ghost var door := if streamingStatus then DoorBlock(Ram()) else [Println("")];
      ghost var head := output;
      output := output + [Out(ArrayOpen)];
      PrintRecords();
      output := output + [Out("]")];
      if !streamingStatus {
        output := output + [Println("")];
      }
      if streamingStatus {
        output := output + DoorBlock(Ram());
      }
      assert output == head + [Out(ArrayOpen)] + records + [Out("]")] + door;
      output := output + [Println("}")];
      ReportAppend(head, [Out(ArrayOpen)], records, [Out("]")], door, [Println("}")]);
    }

    /** One pass of `loop`: the bytes received since the last pass, then streaming. */
    method Loop(input: seq<byte>, samples: seq<seq<Sample>>, streamSamples: seq<Sample>) returns (o: Outcome)
      requires Valid() && |samples| == |input| && |streamSamples| == n
      requires forall i :: 0 <= i < |input| ==> |samples[i]| == n
      modifies this, enabled, eeprom, buffer, sensors
      ensures Valid() && (Abs(), o) == Interpreter.Loop(old(Abs()), input, samples, streamSamples)
    {
      o := ReceiveAll(input, samples);
      if o == Done {
        Stream(streamSamples);
      }
    }
  }
}
