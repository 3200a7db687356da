/**
 * What the firmware's behaviour guarantees, and where it does not: the line
 * accumulator, the effect of each command on the settings and on the EEPROM
 * image, and the commands after which the RAM settings no longer agree with
 * what the image describes.
 */
module Behaviour {
  import opened Prelude
  import opened Max31855
  import opened Config
  import opened Command
  import opened Door
  import opened Telemetry
  import opened Interpreter

  // ---------------------------------------------------------------------------
  // The line accumulator

  /**
   * A received byte is stored at the index; the index moves on by one and
   * wraps from 15 to 0, or returns to 0 once a line feed has run its command.
   */
  lemma FeedStores(s: State, c: byte, samples: seq<Sample>)
    requires Valid(s) && |samples| == s.n
    ensures var (r, o) := Feed(s, c, samples);
      && r.buffer == s.buffer[s.index := c]
      && r.index == (if c == Newline then 0 else (s.index + 1) % BufferSize)
      && (c != Newline ==> o == Done && r == s.(buffer := r.buffer, index := r.index))
  {
  }

  /** A byte other than a line feed is only stored. */
  lemma FeedByte(s: State, c: byte, samples: seq<Sample>)
    requires Valid(s) && |samples| == s.n && c != Newline
    ensures Feed(s, c, samples) == (s.(buffer := s.buffer[s.index := c], index := (s.index + 1) % BufferSize), Done)
  {
  }

  /**
   * Bytes without a line feed are stored one after the other from the index
   * on, the index ending just past them (0 when they fill the buffer).
   */
  lemma {:induction false} DrainWithoutNewline(s: State, line: seq<byte>, samples: seq<seq<Sample>>)
    requires Valid(s) && s.index + |line| <= BufferSize
    requires |samples| == |line| && forall i :: 0 <= i < |line| ==> |samples[i]| == s.n
    requires forall i :: 0 <= i < |line| ==> line[i] != Newline
    ensures Drain(s, line, samples) ==
      (s.(buffer := s.buffer[..s.index] + line + s.buffer[s.index + |line|..],
          index := (s.index + |line|) % BufferSize), Done)
    decreases |line|
  {
    if line == [] {
      assert s.buffer[..s.index] + line + s.buffer[s.index..] == s.buffer;
    } else {
      var next := s.(buffer := s.buffer[s.index := line[0]], index := (s.index + 1) % BufferSize);
      FeedByte(s, line[0], samples[0]);
      assert Drain(s, line, samples) == Drain(next, line[1..], samples[1..]);
      Splice(s.buffer, s.index, line);
      if s.index + 1 == BufferSize {
        assert line[1..] == [];
        assert Drain(next, line[1..], samples[1..]) == (next, Done);
        assert next.buffer == next.buffer[..s.index + 1] + line[1..] + next.buffer[s.index + |line|..];
      } else {
        DrainWithoutNewline(next, line[1..], samples[1..]);
      }
    }
  }

  /** Storing the first byte of a run, then the rest after it, stores the whole run. */
  lemma Splice(buffer: seq<byte>, i: nat, line: seq<byte>)
    requires 0 < |line| && i + |line| <= |buffer|
    ensures var b := buffer[i := line[0]];
      b[..i + 1] + line[1..] + b[i + |line|..] == buffer[..i] + line + buffer[i + |line|..]
  {
    var b := buffer[i := line[0]];
    assert b[..i + 1] == buffer[..i] + [line[0]];
    assert b[i + |line|..] == buffer[i + |line|..];
    assert [line[0]] + line[1..] == line;
  }

  /** Draining two runs of bytes is draining the first, then, unless it stopped, the second. */
  lemma {:induction false} DrainAppend(s: State, a: seq<byte>, b: seq<byte>, samples: seq<seq<Sample>>)
    requires Valid(s) && |samples| == |a| + |b|
    requires forall i :: 0 <= i < |samples| ==> |samples[i]| == s.n
    ensures var (m, o) := Drain(s, a, samples[..|a|]);
      Drain(s, a + b, samples) == if o.Stopped? then (m, o) else Drain(m, b, samples[|a|..])
    decreases |a|
  {
    if a == [] {
      assert a + b == b;
      assert samples[|a|..] == samples;
    } else {
      var front := samples[..|a|];
      assert (a + b)[0] == a[0] && (a + b)[1..] == a[1..] + b;
      assert front[0] == samples[0] && front[1..] == samples[1..][..|a| - 1];
      var (next, o) := Feed(s, a[0], samples[0]);
      if o.Done? {
        DrainAppend(next, a[1..], b, samples[1..]);
        assert samples[1..][|a| - 1..] == samples[|a|..];
      }
    }
  }

  /**
   * A line of up to 16 bytes ending in a line feed, received from index 0,
   * is run from a buffer that begins with the line; bytes of earlier lines
   * after it stay where they are. The index is 0 afterwards.
   */
  lemma DrainLine(s: State, line: seq<byte>, samples: seq<seq<Sample>>)
    requires Valid(s) && s.index == 0 && 0 < |line| <= BufferSize
    requires |samples| == |line| && forall i :: 0 <= i < |line| ==> |samples[i]| == s.n
    requires line[|line| - 1] == Newline && forall i :: 0 <= i < |line| - 1 ==> line[i] != Newline
    ensures var stored := s.(buffer := line + s.buffer[|line|..], index := |line| % BufferSize);
      var (r, o) := Process(stored, samples[|line| - 1]);
      Drain(s, line, samples) == (r.(index := 0), o)
  {
    var body := line[..|line| - 1];
    var m := s.(buffer := s.buffer[..0] + body + s.buffer[|body|..], index := |body|);
    DrainBody(s, line, samples);
    StoredLine(s.buffer, line);
    FeedNewline(m, samples[|line| - 1]);
    var stored := s.(buffer := line + s.buffer[|line|..], index := |line| % BufferSize);
    assert m.(buffer := m.buffer[m.index := Newline], index := if m.index + 1 == BufferSize then 0 else m.index + 1) == stored;
  }

  /** A line feed is stored like any byte, then the command runs and the index goes back to 0. */
  lemma FeedNewline(s: State, samples: seq<Sample>)
    requires Valid(s) && |samples| == s.n
    ensures var stored := s.(buffer := s.buffer[s.index := Newline],
                             index := if s.index + 1 == BufferSize then 0 else s.index + 1);
      Feed(s, Newline, samples) == (Process(stored, samples).0.(index := 0), Process(stored, samples).1)
  {
  }

  /** The bytes before the line feed only fill the buffer; the line feed is then fed on its own. */
  lemma DrainBody(s: State, line: seq<byte>, samples: seq<seq<Sample>>)
    requires Valid(s) && s.index == 0 && 0 < |line| <= BufferSize
    requires |samples| == |line| && forall i :: 0 <= i < |line| ==> |samples[i]| == s.n
    requires line[|line| - 1] == Newline && forall i :: 0 <= i < |line| - 1 ==> line[i] != Newline
    ensures var body := line[..|line| - 1];
      Drain(s, line, samples) ==
        Feed(s.(buffer := s.buffer[..0] + body + s.buffer[|body|..], index := |body|), Newline, samples[|line| - 1])
  {
    var body := line[..|line| - 1];
    assert line == body + [Newline];
    var m := s.(buffer := s.buffer[..0] + body + s.buffer[|body|..], index := |body|);
    var rest := samples[|body|..];
    DrainWithoutNewline(s, body, samples[..|body|]);
    assert (s.index + |body|) % BufferSize == |body|;
    assert Drain(s, body, samples[..|body|]) == (m, Done);
    DrainAppend(s, body, [Newline], samples);
    assert Drain(s, line, samples) == Drain(m, [Newline], rest);
    assert rest[0] == samples[|line| - 1];
    DrainOne(m, Newline, rest);
  }

  /** Writing the line feed after the body leaves the whole line at the front of the buffer. */
  lemma StoredLine(buffer: seq<byte>, line: seq<byte>)
    requires 0 < |line| <= |buffer| && line[|line| - 1] == Newline
    ensures var body := line[..|line| - 1];
      (buffer[..0] + body + buffer[|body|..])[|body| := Newline] == line + buffer[|line|..]
  {
  }

  /** Draining a single byte is feeding it. */
  lemma DrainOne(s: State, c: byte, samples: seq<seq<Sample>>)
    requires Valid(s) && |samples| == 1 && |samples[0]| == s.n
    ensures Drain(s, [c], samples) == Feed(s, c, samples[0])
  {
    assert [c][1..] == [];
  }

  /** Sixteen bytes without a line feed fill the buffer and bring the index back to 0. */
  lemma LongLineWraps(s: State, line: seq<byte>, samples: seq<seq<Sample>>)
    requires Valid(s) && s.index == 0 && |line| == BufferSize
    requires |samples| == |line| && forall i :: 0 <= i < |line| ==> |samples[i]| == s.n
    requires forall i :: 0 <= i < |line| ==> line[i] != Newline
    ensures Drain(s, line, samples) == (s.(buffer := line), Done)
  {
    DrainWithoutNewline(s, line, samples);
    assert s.buffer[..0] + line + s.buffer[BufferSize..] == line;
  }

  // ---------------------------------------------------------------------------
  // The commands

  /** Two images of one size that differ at most in the given cells. */
  predicate SameExcept(a: seq<byte>, b: seq<byte>, cells: set<nat>)
  {
    |a| == |b| && forall i :: 0 <= i < |a| && i !in cells ==> a[i] == b[i]
  }

  /**
   * `T E`/`T D` on a channel from 0 to N - 1 sets that channel's flag in RAM
   * and its cell in the image, and nothing else; the two stay in agreement.
   */
  lemma SetChannelSaves(s: State, channel: int, on: bool)
    requires Valid(s) && 0 <= channel < s.n
    ensures var (r, o) := SetChannel(s, channel, on);
      && o == Done
      && r.ram == s.ram.(enabled := s.ram.enabled[channel := on])
      && r.eeprom[SensorEnabledOffset + channel] == FlagByte(on)
      && SameExcept(r.eeprom, s.eeprom, {SensorEnabledOffset + channel})
      && r.output == s.output && r.effects == s.effects && r.readings == s.readings
      && (InSync(s) ==> InSync(r))
  {
    RestoreEnabledWrite(s.eeprom, s.n, channel, on);
  }

  /** `T E`/`T D` on a channel of N or more prints a diagnostic line and changes nothing else. */
  lemma SetChannelRejects(s: State, channel: int, on: bool)
    requires Valid(s) && channel >= s.n
    ensures var (r, o) := SetChannel(s, channel, on);
      o == Done && r == s.(output := s.output + [Out("# Invalid channel number\r\n")])
  {
    assert Println("# Invalid channel number") == Out("# Invalid channel number\r\n");
  }

  /**
   * `T E` with a byte below '0' (or of 0x80 and above) in place of the
   * channel digit is let through by the guard and stops the model.
   */
  lemma EnableBelowZeroStops(s: State, samples: seq<Sample>)
    requires Valid(s) && |samples| == s.n
    requires s.buffer[0] == 'T' as byte && s.buffer[2] == 'E' as byte
    requires s.buffer[3] < Zero || s.buffer[3] >= 0x80
    ensures Process(s, samples) == (s, Stopped(ChannelBelowZero))
  {
    EnableChannelBelowZero(s.buffer);
  }

  /**
   * `T S`: state 1 starts temperature streaming, stops status streaming and
   * sets the delay; state 0 stops temperature streaming; other states change
   * no setting. Only the temperature flag cell and the delay cells of the
   * image are rewritten, with the flag and delay now in RAM.
   */
  lemma StreamTemperatureStates(s: State, state: int, interval: Option<int>)
    requires Valid(s)
    ensures var (r, o) := StreamTemperatureCommand(s, state, interval);
      && (state == 1 && interval.None? <==> o.Stopped?)
      && (state == 1 && interval.Some? ==>
            r.ram == s.ram.(streamingTemperature := true, streamingStatus := false, streamingDelay := U16(interval.value)))
      && (state == 0 ==> r.ram == s.ram.(streamingTemperature := false))
      && (state != 0 && state != 1 ==> r.ram == s.ram)
      && (state == 0 || state == 1 ==> r.output == s.output)
      && (state != 0 && state != 1 ==>
            r.output == s.output + [Out("# Unknown state value: "), Out(SignedDecimal(state))])
      && r.effects == s.effects && r.readings == s.readings
      && (o == Done ==>
            && Restore(r.eeprom, s.n)
                 == Restore(s.eeprom, s.n).(streamingTemperature := r.ram.streamingTemperature,
                                            streamingDelay := r.ram.streamingDelay)
            && SameExcept(r.eeprom, s.eeprom, {StreamTemperatureOffset(s.n), StreamingDelayOffset(s.n), StreamingDelayOffset(s.n) + 1}))
  {
    var (r, o) := StreamTemperatureCommand(s, state, interval);
    if o == Done {
      RestoreStreamTemperatureWrite(s.eeprom, s.n, r.ram.streamingTemperature);
      var flagged := s.eeprom[StreamTemperatureOffset(s.n) := FlagByte(r.ram.streamingTemperature)];
      RestoreDelayWrite(flagged, s.n, r.ram.streamingDelay);
    }
  }

  /**
   * `S`: state 1 starts status streaming, stops temperature streaming and
   * sets the delay; state 0 stops status streaming; other states change no
   * setting. Only the status flag cell and the delay cells are rewritten.
   */
  lemma StreamStatusStates(s: State, state: byte, interval: Option<int>)
    requires Valid(s)
    ensures var (r, o) := StreamStatusCommand(s, state, interval);
      && (state == 1 && interval.None? <==> o.Stopped?)
      && (state == 1 && interval.Some? ==>
            r.ram == s.ram.(streamingStatus := true, streamingTemperature := false, streamingDelay := U16(interval.value)))
      && (state == 0 ==> r.ram == s.ram.(streamingStatus := false))
      && (state != 0 && state != 1 ==> r.ram == s.ram)
      && r.output == s.output && r.effects == s.effects && r.readings == s.readings
      && (o == Done ==>
            && Restore(r.eeprom, s.n)
                 == Restore(s.eeprom, s.n).(streamingStatus := r.ram.streamingStatus,
                                            streamingDelay := r.ram.streamingDelay)
            && SameExcept(r.eeprom, s.eeprom, {StreamStatusOffset(s.n), StreamingDelayOffset(s.n), StreamingDelayOffset(s.n) + 1}))
  {
    var (r, o) := StreamStatusCommand(s, state, interval);
    if o == Done {
      RestoreStreamStatusWrite(s.eeprom, s.n, r.ram.streamingStatus);
      var flagged := s.eeprom[StreamStatusOffset(s.n) := FlagByte(r.ram.streamingStatus)];
      RestoreDelayWrite(flagged, s.n, r.ram.streamingDelay);
    }
  }

  /** `D C` sets both positions, and an image restored afterwards reads them back unchanged. */
  lemma CalibrateSaves(s: State, closed: int, open: int)
    requires Valid(s)
    ensures var (r, o) := CalibrateCommand(s, Some(closed), Some(open));
      && o == Done
      && r.ram == s.ram.(doorClosed := U16(closed), doorOpen := U16(open))
      && Restore(r.eeprom, s.n) == Restore(s.eeprom, s.n).(doorClosed := U16(closed), doorOpen := U16(open))
      && SameExcept(r.eeprom, s.eeprom,
           {DoorClosedOffset(s.n), DoorClosedOffset(s.n) + 1, DoorOpenOffset(s.n), DoorOpenOffset(s.n) + 1})
      && r.output == s.output && r.effects == s.effects && r.readings == s.readings
  {
    RestorePositionsWrite(s.eeprom, s.n, U16(closed), U16(open));
  }

  /**
   * `T O` updates exactly the enabled channels and prints their records in
   * ascending channel order, commas between them, inside `{ "temperature": [`
   * and `]}`; the settings, the image and the servo are untouched.
   */
  lemma OneShotReports(s: State, samples: seq<Sample>)
    requires Valid(s) && |samples| == s.n
    ensures var r := OneShotCommand(s, samples);
      && r.readings == Refresh(s.readings, s.ram.enabled, samples)
      && r.output == s.output + OneShotReport(s.ram.enabled, r.readings)
      && r.output == s.output + [Out(ArrayOpen)]
           + Separated(Records(Enabled(s.ram.enabled, s.n), r.readings)) + [Println("]}")]
      && r.ram == s.ram && r.eeprom == s.eeprom && r.effects == s.effects
  {
    var r := OneShotCommand(s, samples);
    PrintLoopSeparated(s.ram.enabled, r.readings, s.n);
  }

  /**
   * `D O` on a shut door sweeps it open, appending the sweep's trace, and
   * marks it open in RAM and in the image; a second `D O` straight after is
   * a no-op.
   */
  lemma OpenDoorTwice(s: State, ms: int, ms2: Option<int>)
    requires Valid(s) && !s.ram.doorOpened
    requires Door.Open(s.ram.doorClosed, s.ram.doorOpen, ms).end == Reached
    ensures var (r, o) := OpenDoorCommand(s, Some(ms));
      && o == Done
      && r.effects == s.effects + Door.Open(s.ram.doorClosed, s.ram.doorOpen, ms).trace
      && r.ram == s.ram.(doorOpened := true)
      && r.eeprom == s.eeprom[DoorIsOpenOffset(s.n) := 1]
      && r.output == s.output && r.readings == s.readings
      && OpenDoorCommand(r, ms2) == (r, Done)
  {
  }

  /**
   * `D S` on an open door sweeps it shut and saves it as shut, but leaves the
   * RAM flag set: a `D O` that follows does nothing, and the door stays shut.
   */
  lemma ShutThenOpenBlocked(s: State, ms: int, ms2: Option<int>)
    requires Valid(s) && s.ram.doorOpened
    requires Door.Shut(s.ram.doorClosed, s.ram.doorOpen, ms).end == Reached
    ensures var (r, o) := ShutDoorCommand(s, Some(ms));
      && o == Done
      && r.effects == s.effects + Door.Shut(s.ram.doorClosed, s.ram.doorOpen, ms).trace
      && r.ram == s.ram && r.ram.doorOpened
      && r.eeprom == s.eeprom[DoorIsOpenOffset(s.n) := 0]
      && !Restore(r.eeprom, s.n).doorOpened
      && r.output == s.output && r.readings == s.readings
      && OpenDoorCommand(r, ms2) == (r, Done)
  {
  }

  // ---------------------------------------------------------------------------
  // RAM against EEPROM

  /**
   * The commands after which RAM and EEPROM disagree, starting from agreement:
   * `T S 1` while status streaming is on and `S` state 1 while temperature
   * streaming is on (each clears the other flag in RAM only), and a `D S`
   * that shuts an open door (the RAM flag stays set).
   */
  predicate Desyncs(s: State, cmd: Command)
  {
    || (cmd.StreamTemperature? && cmd.state == 1 && s.ram.streamingStatus)
    || (cmd.StreamStatus? && cmd.statusState == 1 && s.ram.streamingTemperature)
    || (cmd.ShutDoor? && s.ram.doorOpened)
  }

  /**
   * From a state whose RAM agrees with the image, a command that completes
   * keeps the agreement exactly when it is not one of the three above.
   */
  lemma ExecuteSync(s: State, cmd: Command, samples: seq<Sample>)
    requires Valid(s) && |samples| == s.n && InSync(s)
    requires Execute(s, cmd, samples).1 == Done
    ensures InSync(Execute(s, cmd, samples).0) <==> !Desyncs(s, cmd)
  {
    match cmd
    case EnableChannel(c) =>
      if 0 <= c < s.n { SetChannelSaves(s, c, true); }
    case DisableChannel(c) =>
      if 0 <= c < s.n { SetChannelSaves(s, c, false); }
    case OneShot =>
    case StreamTemperature(state, interval) =>
      TemperatureSync(s, state, interval);
    case Calibrate(closed, open) =>
      CalibrateSaves(s, closed.value, open.value);
    case OpenDoor(ms) =>
      OpenSync(s, ms);
    case ShutDoor(ms) =>
      ShutSync(s, ms);
    case StreamStatus(state, interval) =>
      StatusSync(s, state, interval);
    case NoCommand =>
  }

  /** `T S` keeps RAM and image in agreement unless it is state 1 while status streaming is on. */
  lemma TemperatureSync(s: State, state: int, interval: Option<int>)
    requires Valid(s) && InSync(s) && StreamTemperatureCommand(s, state, interval).1 == Done
    ensures InSync(StreamTemperatureCommand(s, state, interval).0) <==> !(state == 1 && s.ram.streamingStatus)
  {
    var r := StreamTemperatureCommand(s, state, interval).0;
    StreamTemperatureStates(s, state, interval);
    if state == 1 && s.ram.streamingStatus {
      assert Restore(r.eeprom, s.n).streamingStatus != r.ram.streamingStatus;
    }
  }

  /** `S` keeps RAM and image in agreement unless it is state 1 while temperature streaming is on. */
  lemma StatusSync(s: State, state: byte, interval: Option<int>)
    requires Valid(s) && InSync(s) && StreamStatusCommand(s, state, interval).1 == Done
    ensures InSync(StreamStatusCommand(s, state, interval).0) <==> !(state == 1 && s.ram.streamingTemperature)
  {
    var r := StreamStatusCommand(s, state, interval).0;
    StreamStatusStates(s, state, interval);
    if state == 1 && s.ram.streamingTemperature {
      assert Restore(r.eeprom, s.n).streamingTemperature != r.ram.streamingTemperature;
    }
  }

  /** A `D O` that completes keeps RAM and image in agreement. */
  lemma OpenSync(s: State, ms: Option<int>)
    requires Valid(s) && InSync(s) && OpenDoorCommand(s, ms).1 == Done
    ensures InSync(OpenDoorCommand(s, ms).0)
  {
    if !s.ram.doorOpened {
      RestoreDoorIsOpenWrite(s.eeprom, s.n, true);
    }
  }

  /** A `D S` that completes breaks the agreement exactly when the door was open. */
  lemma ShutSync(s: State, ms: Option<int>)
    requires Valid(s) && InSync(s) && ShutDoorCommand(s, ms).1 == Done
    ensures InSync(ShutDoorCommand(s, ms).0) <==> !s.ram.doorOpened
  {
    var r := ShutDoorCommand(s, ms).0;
    if s.ram.doorOpened {
      assert Restore(r.eeprom, s.n).doorOpened != r.ram.doorOpened;
    }
  }

  /**
   * A marked image is loaded into RAM and left unchanged, so RAM and image
   * agree, and a second `validate_eeprom` changes nothing.
   */
  lemma ValidateMarked(s: State)
    requires Valid(s) && HasMarker(s.eeprom)
    ensures Validate(s) == s.(ram := Restore(s.eeprom, s.n))
    ensures InSync(Validate(s))
    ensures Validate(Validate(s)) == Validate(s)
  {
  }

  /**
   * An unmarked image is initialised with the defaults but RAM is left as it
   * was; the image then carries the marker, so a second `validate_eeprom`
   * takes the loading branch, which changes RAM alone, to the defaults.
   */
  lemma ValidateUnmarked(s: State)
    requires Valid(s) && !HasMarker(s.eeprom)
    ensures Validate(s) == s.(eeprom := Initialize(s.eeprom, s.n))
    ensures HasMarker(Validate(s).eeprom)
    ensures Restore(Validate(s).eeprom, s.n) == DefaultRam(s.n)
    ensures Validate(Validate(s)) == Validate(s).(ram := DefaultRam(s.n))
  {
    InitializeThenRestore(s.eeprom, s.n);
    ValidateMarked(Validate(s));
  }

  /**
   * At first power-on with an unmarked image the firmware runs with the reset
   * values in RAM (open position 0, delay 0), not the defaults it has just
   * saved; with a marked image RAM and image agree.
   */
  lemma PowerOnSync(n: nat, image: seq<byte>)
    requires Fits(image, n)
    ensures InSync(Validate(PowerOn(n, image))) <==> HasMarker(image)
  {
    var s := PowerOn(n, image);
    if !HasMarker(image) {
      ValidateUnmarked(s);
      DefaultsNotLoaded(n);
      assert Validate(s).ram == InitialRam(n);
    }
  }

  // ---------------------------------------------------------------------------
  // Streaming

  /** With both kinds of streaming off, the streaming part of `loop` does nothing. */
  lemma StreamOff(s: State, samples: seq<Sample>)
    requires Valid(s) && |samples| == s.n
    requires !s.ram.streamingStatus && !s.ram.streamingTemperature
    ensures Stream(s, samples) == s
  {
  }

  /**
   * With either kind on, each pass updates the enabled channels, prints one
   * report whose door block is there exactly when status streaming is on,
   * and waits for the delay unless it is 0.
   */
  lemma StreamOn(s: State, samples: seq<Sample>)
    requires Valid(s) && |samples| == s.n
    requires s.ram.streamingStatus || s.ram.streamingTemperature
    ensures var r := Stream(s, samples);
      && r.readings == Refresh(s.readings, s.ram.enabled, samples)
      && r.output == s.output + StreamReport(s.ram, r.readings)
      && (Out(", \"door\": {") in r.output[|s.output|..] <==> s.ram.streamingStatus)
      && r.effects == s.effects + (if s.ram.streamingDelay == 0 then [] else [Delay(s.ram.streamingDelay)])
      && r.ram == s.ram && r.eeprom == s.eeprom
  {
    var r := Stream(s, samples);
    DoorBlockAppears(s.ram, r.readings);
    assert r.output[|s.output|..] == StreamReport(s.ram, r.readings);
  }
}
