/**
 * The persistent configuration: the EEPROM layout, the RAM copy of the
 * settings, and what `validate_eeprom` does with them.
 *
 * The EEPROM image is a sequence of bytes of which only the first 13 + N
 * cells are used, N being the number of thermocouple channels (4, or 8 on a
 * board built with both converter boards).
 */
module Config {
  import opened Prelude

  /** The four bytes that mark an initialised image. */
  const Marker: seq<byte> := [0x0B, 0x0E, 0x0E, 0x0F]

  const DefaultDoorOpenPosition: u16 := 360
  const DefaultStreamingDelay: u16 := 500

  /** The board has four channels, or eight when built with both converter boards. */
  predicate ChannelCount(n: nat)
  {
    n == 4 || n == 8
  }

  // The layout: one enable flag per channel from address 4, then the two
  // streaming flags, then three 16-bit values stored low byte first, then the
  // door flag.

  const SensorEnabledOffset: nat := 4

  function StreamTemperatureOffset(n: nat): nat { SensorEnabledOffset + n }
  function StreamStatusOffset(n: nat): nat { StreamTemperatureOffset(n) + 1 }
  function StreamingDelayOffset(n: nat): nat { StreamStatusOffset(n) + 1 }
  function DoorClosedOffset(n: nat): nat { StreamingDelayOffset(n) + 2 }
  function DoorOpenOffset(n: nat): nat { DoorClosedOffset(n) + 2 }
  function DoorIsOpenOffset(n: nat): nat { DoorOpenOffset(n) + 2 }

  /** The number of cells the layout uses. */
  function ImageSize(n: nat): nat { DoorIsOpenOffset(n) + 1 }

  /** The layout in closed form: the cells follow one another without gaps. */
  lemma LayoutOffsets(n: nat)
    ensures StreamTemperatureOffset(n) == 4 + n && StreamStatusOffset(n) == 5 + n
    ensures StreamingDelayOffset(n) == 6 + n && DoorClosedOffset(n) == 8 + n
    ensures DoorOpenOffset(n) == 10 + n && DoorIsOpenOffset(n) == 12 + n
    ensures ImageSize(n) == 13 + n
  {
  }

  /** The settings the firmware keeps in RAM (the globals and `sensors[].enabled`). */
  datatype Ram = Ram(
    enabled: seq<bool>,
    streamingTemperature: bool,
    streamingStatus: bool,
    streamingDelay: u16,
    doorClosed: u16,
    doorOpen: u16,
    doorOpened: bool)

  /** The RAM settings at reset: every channel enabled, every flag clear, every number zero. */
  function InitialRam(n: nat): (ram: Ram)
    ensures |ram.enabled| == n && forall i :: 0 <= i < n ==> ram.enabled[i]
    ensures !ram.streamingTemperature && !ram.streamingStatus && !ram.doorOpened
    ensures ram.streamingDelay == 0 && ram.doorClosed == 0 && ram.doorOpen == 0
  {
    Ram(seq(n, i => true), false, false, 0, 0, 0, false)
  }

  /** The settings a freshly initialised image describes. */
  function DefaultRam(n: nat): Ram
  {
    Ram(seq(n, i => true), false, false, DefaultStreamingDelay, 0, DefaultDoorOpenPosition, false)
  }

  /** An EEPROM image large enough for the layout of an n-channel board. */
  predicate Fits(image: seq<byte>, n: nat)
  {
    ChannelCount(n) && |image| >= ImageSize(n)
  }

  /** The marker test of `validate_eeprom`: cells 0 to 3 hold 0x0B, 0x0E, 0x0E, 0x0F. */
  predicate HasMarker(image: seq<byte>)
    requires |image| >= 4
  {
    image[0] == 0x0B && image[1] == 0x0E && image[2] == 0x0E && image[3] == 0x0F
  }

  /** A flag cell reads as set only when it holds exactly 1. */
  function FlagOf(b: byte): bool
  {
    b == 1
  }

  /** The byte a flag is saved as. */
  function FlagByte(b: bool): (r: byte)
    ensures FlagOf(r) == b
  {
    if b then 1 else 0
  }

  /** A 16-bit value read back from two cells, low byte at `addr`. */
  function Read16(image: seq<byte>, addr: nat): u16
    requires addr + 1 < |image|
  {
    Join16(image[addr], image[addr + 1])
  }

  /** A 16-bit value saved at `addr`, low byte first. */
  function Write16(image: seq<byte>, addr: nat, v: u16): (r: seq<byte>)
    requires addr + 1 < |image|
    ensures |r| == |image| && Read16(r, addr) == v
    ensures forall i :: 0 <= i < |image| && i != addr && i != addr + 1 ==> r[i] == image[i]
  {
    JoinSplit(v);
    image[addr := LowByte(v)][addr + 1 := HighByte(v)]
  }

  /** The settings an image describes: what the marked branch of `validate_eeprom` loads into RAM. */
  function Restore(image: seq<byte>, n: nat): (ram: Ram)
    requires |image| >= ImageSize(n)
    ensures |ram.enabled| == n
  {
    Ram(
      seq(n, i requires 0 <= i < n => FlagOf(image[SensorEnabledOffset + i])),
      FlagOf(image[StreamTemperatureOffset(n)]),
      FlagOf(image[StreamStatusOffset(n)]),
      Read16(image, StreamingDelayOffset(n)),
      Read16(image, DoorClosedOffset(n)),
      Read16(image, DoorOpenOffset(n)),
      FlagOf(image[DoorIsOpenOffset(n)]))
  }

  /** A channel is enabled in the restored settings when its cell holds 1. */
  lemma RestoreEnabled(image: seq<byte>, n: nat, i: nat)
    requires |image| >= ImageSize(n) && i < n
    ensures Restore(image, n).enabled[i] == (image[SensorEnabledOffset + i] == 1)
  {
    var flags := seq(n, j requires 0 <= j < n => FlagOf(image[SensorEnabledOffset + j]));
    assert Restore(image, n).enabled == flags;
    assert flags[i] == FlagOf(image[SensorEnabledOffset + i]);
  }

  /**
   * The image the unmarked branch of `validate_eeprom` leaves: the marker, an
   * enable flag of 1 per channel, both streaming flags 0, the delay 500, the
   * closed position 0, the open position 360, and the door flag 0. Cells past
   * the layout are kept.
   */
  function Initialize(image: seq<byte>, n: nat): (r: seq<byte>)
    requires |image| >= ImageSize(n)
    ensures |r| == |image|
  {
    Marker + seq(n, i => 1) + [0, 0]
      + [LowByte(DefaultStreamingDelay), HighByte(DefaultStreamingDelay)]
      + [0, 0]
      + [LowByte(DefaultDoorOpenPosition), HighByte(DefaultDoorOpenPosition)]
      + [0]
      + image[ImageSize(n)..]
  }

  /** The cells of an initialised image one by one, as `validate_eeprom` writes them. */
  lemma InitializeCells(image: seq<byte>, n: nat)
    requires |image| >= ImageSize(n)
    ensures var r := Initialize(image, n);
      r[0] == 0x0B && r[1] == 0x0E && r[2] == 0x0E && r[3] == 0x0F
      && (forall i :: SensorEnabledOffset <= i < SensorEnabledOffset + n ==> r[i] == 1)
      && r[4 + n] == 0 && r[5 + n] == 0
      && r[6 + n] == 0xF4 && r[7 + n] == 0x01
      && r[8 + n] == 0 && r[9 + n] == 0
      && r[10 + n] == 0x68 && r[11 + n] == 0x01
      && r[12 + n] == 0
      && r[ImageSize(n)..] == image[ImageSize(n)..]
  {
    var r := Initialize(image, n);
    forall i | SensorEnabledOffset <= i < SensorEnabledOffset + n
      ensures r[i] == 1
    {
      assert r[i] == seq(n, i => 1)[i - SensorEnabledOffset];
    }
    assert r[ImageSize(n)..] == image[ImageSize(n)..];
  }

  /**
   * After initialisation the marker test passes, so a second `validate_eeprom`
   * takes the read-only branch, and the image describes the default settings.
   */
  lemma InitializeThenRestore(image: seq<byte>, n: nat)
    requires |image| >= ImageSize(n)
    ensures HasMarker(Initialize(image, n))
    ensures Restore(Initialize(image, n), n) == DefaultRam(n)
  {
    InitializeCells(image, n);
    LayoutOffsets(n);
    var r := Initialize(image, n);
    var ram := Restore(r, n);
    assert !ram.streamingTemperature && !ram.streamingStatus && !ram.doorOpened;
    assert ram.streamingDelay == Join16(0xF4, 0x01) == 500;
    assert ram.doorClosed == Join16(0, 0) == 0;
    assert ram.doorOpen == Join16(0x68, 0x01) == 360;
    forall i | 0 <= i < n
      ensures ram.enabled[i]
    {
      assert r[SensorEnabledOffset + i] == 1;
      assert ram.enabled[i] == FlagOf(r[SensorEnabledOffset + i]);
    }
    assert ram.enabled == seq(n, i => true);
  }

  /**
   * The unmarked branch writes the defaults into the image only: RAM keeps
   * its reset values, which differ from the defaults in the open position and
   * the streaming delay.
   */
  lemma DefaultsNotLoaded(n: nat)
    ensures InitialRam(n) != DefaultRam(n)
    ensures InitialRam(n).doorOpen == 0 && DefaultRam(n).doorOpen == 360
    ensures InitialRam(n).streamingDelay == 0 && DefaultRam(n).streamingDelay == 500
  {
  }

  /** A 16-bit value saved low byte first reads back unchanged, and the two bytes are the ones `validate_eeprom` expects. */
  lemma Read16Write16(image: seq<byte>, addr: nat, v: u16)
    requires addr + 1 < |image|
    ensures Read16(Write16(image, addr, v), addr) == v
    ensures Write16(image, addr, v)[addr] == v % 0x100 && Write16(image, addr, v)[addr + 1] == v / 0x100
  {
  }

  // The writes `processCommand` makes, and what they do to the settings the
  // image describes. Each changes exactly one field.

  /** Saving the enable flag of channel `ch` changes only that flag in the restored settings. */
  lemma RestoreEnabledWrite(image: seq<byte>, n: nat, ch: nat, b: bool)
    requires |image| >= ImageSize(n) && ch < n
    ensures Restore(image[SensorEnabledOffset + ch := FlagByte(b)], n)
      == Restore(image, n).(enabled := Restore(image, n).enabled[ch := b])
  {
    var r := image[SensorEnabledOffset + ch := FlagByte(b)];
    assert Restore(r, n).enabled == Restore(image, n).enabled[ch := b];
  }

  /** Saving the temperature streaming flag changes only that flag. */
  lemma RestoreStreamTemperatureWrite(image: seq<byte>, n: nat, b: bool)
    requires |image| >= ImageSize(n)
    ensures Restore(image[StreamTemperatureOffset(n) := FlagByte(b)], n)
      == Restore(image, n).(streamingTemperature := b)
  {
    var r := image[StreamTemperatureOffset(n) := FlagByte(b)];
    assert Restore(r, n).enabled == Restore(image, n).enabled;
  }

  /** Saving the status streaming flag changes only that flag. */
  lemma RestoreStreamStatusWrite(image: seq<byte>, n: nat, b: bool)
    requires |image| >= ImageSize(n)
    ensures Restore(image[StreamStatusOffset(n) := FlagByte(b)], n)
      == Restore(image, n).(streamingStatus := b)
  {
    var r := image[StreamStatusOffset(n) := FlagByte(b)];
    assert Restore(r, n).enabled == Restore(image, n).enabled;
  }

  /** Saving the door flag changes only that flag. */
  lemma RestoreDoorIsOpenWrite(image: seq<byte>, n: nat, b: bool)
    requires |image| >= ImageSize(n)
    ensures Restore(image[DoorIsOpenOffset(n) := FlagByte(b)], n)
      == Restore(image, n).(doorOpened := b)
  {
    var r := image[DoorIsOpenOffset(n) := FlagByte(b)];
    assert Restore(r, n).enabled == Restore(image, n).enabled;
  }

  /** Saving the streaming delay changes only the delay. */
  lemma RestoreDelayWrite(image: seq<byte>, n: nat, v: u16)
    requires |image| >= ImageSize(n)
    ensures Restore(Write16(image, StreamingDelayOffset(n), v), n)
      == Restore(image, n).(streamingDelay := v)
  {
    var r := Write16(image, StreamingDelayOffset(n), v);
    assert Restore(r, n).enabled == Restore(image, n).enabled;
  }

  /** Saving the two door positions changes only the positions. */
  lemma RestorePositionsWrite(image: seq<byte>, n: nat, closed: u16, open: u16)
    requires |image| >= ImageSize(n)
    ensures Restore(Write16(Write16(image, DoorClosedOffset(n), closed), DoorOpenOffset(n), open), n)
      == Restore(image, n).(doorClosed := closed, doorOpen := open)
  {
    var r1 := Write16(image, DoorClosedOffset(n), closed);
    var r := Write16(r1, DoorOpenOffset(n), open);
    assert Read16(r, DoorClosedOffset(n)) == Read16(r1, DoorClosedOffset(n));
    assert Restore(r, n).enabled == Restore(image, n).enabled;
  }
}
