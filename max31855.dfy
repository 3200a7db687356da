/**
 * The MAX31855 thermocouple driver: the status enumeration, the decoding of the
 * 32-bit frame the chip sends, and the `Driver` object that keeps the last
 * decoded reading of one channel.
 *
 * Temperatures are kept as the integer counts the chip reports: the probe in
 * quarter degrees, the cold junction in sixteenths of a degree. The firmware
 * multiplies them by 0.25 and 0.0625; that floating-point step is not modelled.
 */
module Max31855 {
  import opened Prelude

  /** The enumeration `status` of the header; `Code` gives its integer values. */
  datatype Status = Unknown | Ok | NotConnected | ShortToGround | ShortToVcc

  /** The integer each enumerator stands for. */
  function Code(s: Status): (c: int)
    ensures -1 <= c <= 3
  {
    match s
    case Unknown => -1
    case Ok => 0
    case NotConnected => 1
    case ShortToGround => 2
    case ShortToVcc => 3
  }

  /** The enumerator with a given integer code, if any. */
  function FromCode(c: int): Option<Status>
  {
    if c == -1 then Some(Unknown)
    else if c == 0 then Some(Ok)
    else if c == 1 then Some(NotConnected)
    else if c == 2 then Some(ShortToGround)
    else if c == 3 then Some(ShortToVcc)
    else None
  }

  /** The code determines the status: `FromCode` inverts `Code`, and only the five codes are used. */
  lemma CodeRoundTrip(s: Status, c: int)
    ensures FromCode(Code(s)) == Some(s)
    ensures FromCode(c) == Some(s) <==> Code(s) == c
    ensures FromCode(c) == None <==> c < -1 || 3 < c
  {
  }

  /** `status_to_string`: a non-empty label for each of the five statuses. */
  function StatusToString(s: Status): (name: string)
    ensures name != ""
  {
    match s
    case Unknown => "unknown error"
    case Ok => "okay"
    case NotConnected => "not connected"
    case ShortToGround => "short to ground"
    case ShortToVcc => "short to Vcc"
  }

  /** Different statuses get different labels. */
  lemma StatusNamesDistinct(s: Status, t: Status)
    ensures StatusToString(s) == StatusToString(t) ==> s == t
  {
    if s != t {
      match s
      case Unknown => assert StatusToString(s)[0] == 'u';
      case Ok => assert StatusToString(s)[0] == 'o';
      case NotConnected => assert StatusToString(s)[0] == 'n';
      case ShortToGround => assert StatusToString(s)[9] == 'g';
      case ShortToVcc => assert StatusToString(s)[9] == 'V';
    }
  }

  // ---------------------------------------------------------------------------
  // The frame
  //
  // The 32-bit sample is a `u32`; the firmware's bit operations on it are
  // written as the integer arithmetic they amount to: `x >> k` is `x / 2^k`,
  // `x & (2^k - 1)` is `x % 2^k`, and a test of bit k is `(x / 2^k) % 2 == 1`.

  /** The four bytes of one SPI transfer, in the order they arrive on the bus. */
  datatype Frame = Frame(b0: byte, b1: byte, b2: byte, b3: byte)

  /** The 32-bit sample of a frame: the first byte transferred is the most significant. */
  function Word(f: Frame): u32
  {
    f.b0 * 0x100_0000 + f.b1 * 0x1_0000 + f.b2 * 0x100 + f.b3
  }

  /** Each byte of the frame can be read back from its place in the sample. */
  lemma WordBytes(f: Frame)
    ensures Word(f) / 0x100_0000 == f.b0
    ensures (Word(f) / 0x1_0000) % 0x100 == f.b1
    ensures (Word(f) / 0x100) % 0x100 == f.b2
    ensures Word(f) % 0x100 == f.b3
  {
    var w := Word(f);
    DivUnique(w, 0x100_0000, f.b0, f.b1 * 0x1_0000 + f.b2 * 0x100 + f.b3);
    DivUnique(w, 0x1_0000, f.b0 * 0x100 + f.b1, f.b2 * 0x100 + f.b3);
    DivUnique(f.b0 * 0x100 + f.b1, 0x100, f.b0, f.b1);
    DivUnique(w, 0x100, f.b0 * 0x1_0000 + f.b1 * 0x100 + f.b2, f.b3);
    DivUnique(f.b0 * 0x1_0000 + f.b1 * 0x100 + f.b2, 0x100, f.b0 * 0x100 + f.b1, f.b2);
  }

  // ---------------------------------------------------------------------------
  // Decoding a sample

  /** Bit 16 flags a fault. */
  predicate Faulted(raw: u32)
  {
    (raw / 0x1_0000) % 2 == 1
  }

  /** The status of a faulted sample: bits 0, 1 and 2 are tried in that order. */
  function FaultStatus(raw: u32): Status
  {
    if raw % 2 == 1 then NotConnected
    else if (raw / 2) % 2 == 1 then ShortToGround
    else if (raw / 4) % 2 == 1 then ShortToVcc
    else Unknown
  }

  /**
   * The probe count the firmware derives from a sample: the 13 bits 18..30, and
   * when bit 31 is set, -32768 plus those bits (the sign bit is OR-ed into an
   * `int16_t` rather than the field being sign-extended).
   */
  function ProbeCount(raw: u32): (t: int)
    ensures 0 <= t < 0x2000 || -0x8000 <= t < -0x6000
  {
    var field := (raw / 0x4_0000) % 0x2000;
    if raw >= 0x8000_0000 then field - 0x8000 else field
  }

  /** The cold-junction count: bits 4..14, and -32768 plus those bits when bit 15 is set. */
  function JunctionCount(raw: u32): (t: int)
    ensures 0 <= t < 0x800 || -0x8000 <= t < -0x7800
  {
    var field := (raw / 0x10) % 0x800;
    if (raw / 0x8000) % 2 == 1 then field - 0x8000 else field
  }

  /** The last decoded reading of one channel: the fields `update()` writes. */
  datatype Reading = Reading(lastReading: nat, status: Status, value: int, junctionRef: int)

  /** A channel before its first `update()`: the statically allocated drivers start out zero. */
  const ZeroReading: Reading := Reading(0, Ok, 0, 0)

  /** What one `update()` gets from outside: the frame the chip sends, and the value of `micros()`. */
  datatype Sample = Sample(frame: Frame, now: u32)

  /**
   * The reading after `update()` decodes `raw` at time `now`: a fault changes
   * only the status (and the junction); a good sample sets the status to Ok,
   * the probe count and the timestamp. The junction count is always replaced.
   */
  function Decode(prev: Reading, raw: u32, now: u32): Reading
  {
    if Faulted(raw) then
      prev.(status := FaultStatus(raw), junctionRef := JunctionCount(raw))
    else
      Reading(now, Ok, ProbeCount(raw), JunctionCount(raw))
  }

  /**
   * The fault flag and the fault kind of a frame, in terms of the transferred
   * bytes: the flag is bit 0 of the second byte, the kind is read from the
   * low three bits of the last byte.
   */
  lemma FaultOfFrame(f: Frame)
    ensures Faulted(Word(f)) <==> f.b1 % 2 == 1
    ensures FaultStatus(Word(f)) == FaultStatus(f.b3)
  {
    var w := Word(f);
    assert w / 0x1_0000 == f.b0 * 0x100 + f.b1;
    assert w % 8 == f.b3 % 8;
    LowBits(w);
    LowBits(f.b3);
  }

  /** Bits 0, 1 and 2 of a number are those of its remainder modulo 8. */
  lemma LowBits(x: nat)
    ensures x % 2 == (x % 8) % 2
    ensures (x / 2) % 2 == ((x % 8) / 2) % 2
    ensures (x / 4) % 2 == (x % 8) / 4
  {
    var q, r := x / 8, x % 8;
    assert x == 8 * q + r;
    assert x / 2 == 4 * q + r / 2;
    assert x / 4 == 2 * q + r / 4;
  }

  /** Bit 0 of a number's remainder modulo 32 is bit 0 of the number. */
  lemma ModMod(q: nat)
    ensures (q % 0x20) % 2 == q % 2
  {
    assert q == (q / 0x20) * 0x20 + q % 0x20;
  }

  /** A fault leaves the probe value and its timestamp as they were. */
  lemma FaultKeepsProbe(prev: Reading, raw: u32, now: u32)
    requires Faulted(raw)
    ensures Decode(prev, raw, now).value == prev.value
    ensures Decode(prev, raw, now).lastReading == prev.lastReading
    ensures Decode(prev, raw, now).status != Ok
    ensures Decode(prev, raw, now).junctionRef == JunctionCount(raw)
  {
  }

  /** A sample with several fault bits set resolves to the first one tried: 0x00010005 is "not connected". */
  lemma FaultPriorityExample(prev: Reading, now: u32)
    ensures Decode(prev, 0x0001_0005, now).status == NotConnected
    ensures Decode(prev, 0x0001_0006, now).status == ShortToGround
    ensures Decode(prev, 0x0001_0000, now).status == Unknown
  {
  }

  /** The probe count in terms of the transferred bytes: bits 0..6 of b0 and 2..7 of b1, signed by bit 7 of b0. */
  lemma ProbeCountOfFrame(f: Frame)
    ensures ProbeCount(Word(f)) ==
      (if f.b0 >= 0x80 then -0x8000 else 0) + (f.b0 % 0x80) * 0x40 + f.b1 / 4
  {
    var w := Word(f);
    assert w / 0x4_0000 == f.b0 * 0x40 + f.b1 / 4;
  }

  /** The junction count in terms of the transferred bytes: bits 0..6 of b2 and 4..7 of b3, signed by bit 7 of b2. */
  lemma JunctionCountOfFrame(f: Frame)
    ensures JunctionCount(Word(f)) ==
      (if f.b2 >= 0x80 then -0x8000 else 0) + (f.b2 % 0x80) * 0x10 + f.b3 / 0x10
  {
    var w := Word(f);
    var y := f.b0 * 0x10_0000 + f.b1 * 0x1000 + f.b2 * 0x10 + f.b3 / 0x10;
    DivUnique(w, 0x10, y, f.b3 % 0x10);
    var hi, lo := f.b2 / 0x80, f.b2 % 0x80;
    var top := f.b0 * 0x200 + f.b1 * 2 + hi;
    DivUnique(y, 0x800, top, lo * 0x10 + f.b3 / 0x10);
    DivUnique(w, 0x8000, top, lo * 0x100 + f.b3);
    DivUnique(top, 2, f.b0 * 0x100 + f.b1, hi);
  }

  /** The C unpacking of the probe field, step by step, computes `ProbeCount`. */
  lemma ProbeUnpack(raw: u32)
    ensures var t := Int16(raw / 0x4_0000);
      (if HasBit16(t, 0x2000) then Int16(t % 0x2000 + 0x8000) else t % 0x2000) == ProbeCount(raw)
  {
  }

  /** The C unpacking of the junction field, step by step, computes `JunctionCount`. */
  lemma JunctionUnpack(raw: u32)
    ensures var t := Int16(raw / 0x10);
      (if HasBit16(t, 0x800) then Int16(t % 0x800 + 0x8000) else t % 0x800) == JunctionCount(raw)
  {
    var y := raw / 0x10;
    var m := y % 0x1_0000;
    var f := (raw / 0x10) % 0x800;
    assert m == (y / 0x800 % 0x20) * 0x800 + f;
    assert y / 0x800 == raw / 0x8000;
    var q := y / 0x800;
    assert m / 0x800 == q % 0x20;
    ModMod(q);
    Int16OfNat(y);
    var t := Int16(y);
    assert t % 0x1_0000 == m;
    assert t % 0x800 == f;
  }

  /** The 14-bit probe field read as a two's-complement number, as the chip encodes it. */
  function ProbeTwosComplement(raw: u32): int
  {
    var field := raw / 0x4_0000;
    if field >= 0x2000 then field - 0x4000 else field
  }

  /**
   * Negative probe readings come out 24576 counts (6144 degrees) below the
   * two's-complement value the chip sends; non-negative ones agree.
   */
  lemma ProbeCountVersusTwosComplement(raw: u32)
    ensures ProbeCount(raw) == ProbeTwosComplement(raw) - (if raw >= 0x8000_0000 then 0x6000 else 0)
  {
  }

  /** A probe field of 0x3FFF (-0.25 degrees in two's complement) is decoded as -24577. */
  lemma ProbeMinusOneCount()
    ensures ProbeTwosComplement(0xFFFC_0000) == -1
    ensures ProbeCount(0xFFFC_0000) == -24577
  {
  }

  /** The JSON value kinds `toJson` emits; `Fixed` is a count scaled by 1/scale, printed with three decimals. */
  datatype JsonValue = Integer(i: int) | Text(s: string) | Fixed(count: int, scale: nat)

  /** The keys of a record, in order. */
  function Keys(record: seq<(string, JsonValue)>): (keys: seq<string>)
    ensures |keys| == |record|
  {
    seq(|record|, i requires 0 <= i < |record| => record[i].0)
  }

  /** `x |= b` for a `uint32_t` x whose low byte is still clear: the byte lands in the low eight bits. */
  function OrLowByte(x: u32, b: byte): (r: u32)
    requires x % 0x100 == 0
    ensures r % 0x100 == b && r / 0x100 == x / 0x100
  {
    x + b
  }

  /** `x <<= 8` for a `uint32_t` x: the top byte falls off. */
  function ShiftLeft8(x: u32): (r: u32)
    ensures r % 0x100 == 0 && r / 0x100 == x % 0x100_0000
  {
    (x * 0x100) % 0x1_0000_0000
  }

  /**
   * One thermocouple channel. `channel` and `chipSelect` are fixed when the
   * object is built; only `Update` changes the reading fields.
   */
  class Driver {
    const channel: byte
    const chipSelect: i8

    var lastReading: nat
    var lastStatus: Status
    var lastValue: int
    var lastJunctionRef: int

    /** The reading fields as one value. */
    function Current(): Reading
      reads this
    {
      Reading(lastReading, lastStatus, lastValue, lastJunctionRef)
    }

    /**
     * The constructor sets only the channel and the chip select; the drivers
     * live in static storage, so the reading fields start out zero.
     */
    constructor (channel: byte, chipSelect: i8)
      ensures this.channel == channel && this.chipSelect == chipSelect
      ensures Current() == ZeroReading
    {
      this.channel := channel;
      this.chipSelect := chipSelect;
      lastReading, lastStatus, lastValue, lastJunctionRef := 0, Ok, 0, 0;
    }

    /**
     * `_read_from_device`: ORs each transferred byte into the low end of the
     * word and shifts it up by eight bits before the next one.
     */
    method ReadFromDevice(f: Frame) returns (word: u32)
      ensures word == Word(f)
    {
      word := 0;
      word := OrLowByte(word, f.b0);
      word := ShiftLeft8(word);
      assert word == f.b0 * 0x100;
      word := OrLowByte(word, f.b1);
      word := ShiftLeft8(word);
      assert word == (f.b0 * 0x100 + f.b1) * 0x100;
      word := OrLowByte(word, f.b2);
      word := ShiftLeft8(word);
      assert word == ((f.b0 * 0x100 + f.b1) * 0x100 + f.b2) * 0x100;
      word := OrLowByte(word, f.b3);
    }

    /** `update()`: reads one frame and decodes it into the reading fields, at clock value `now`. */
    method Update(f: Frame, now: u32)
      modifies this
      ensures Current() == Decode(old(Current()), Word(f), now)
    {
      var raw := ReadFromDevice(f);
      UpdateProbe(raw, now);
      UpdateJunction(raw);
    }

    /** The first half of `update()`: the fault test, then the status, or the probe count and its time. */
    method UpdateProbe(raw: u32, now: u32)
      modifies this`lastStatus, this`lastValue, this`lastReading
      ensures var d := Decode(old(Current()), raw, now);
        lastStatus == d.status && lastValue == d.value && lastReading == d.lastReading
    {
      if (raw / 0x1_0000) % 2 == 1 {           // full_read & 0x00010000
        var faults := raw % 8;                 // (uint8_t)(full_read & 0x07)
        LowBits(raw);
        if faults % 2 == 1 {
          lastStatus := NotConnected;
        } else if (faults / 2) % 2 == 1 {
          lastStatus := ShortToGround;
        } else if (faults / 4) % 2 == 1 {
          lastStatus := ShortToVcc;
        } else {
          lastStatus := Unknown;
        }
      } else {
        ProbeUnpack(raw);
        lastStatus := Ok;
        var temp := Int16(raw / 0x4_0000);     // (int16_t)(full_read >> 18)
        if HasBit16(temp, 0x2000) {
          temp := temp % 0x2000;               // &= 0x1FFF
          temp := Int16(temp + 0x8000);        // |= 0x8000, stored back in the int16_t
        } else {
          temp := temp % 0x2000;               // &= 0x1FFF
        }
        lastValue := temp;
        lastReading := now;
      }
    }

    /** The second half of `update()`: the cold-junction count, always replaced. */
    method UpdateJunction(raw: u32)
      modifies this`lastJunctionRef
      ensures lastJunctionRef == JunctionCount(raw)
    {
      JunctionUnpack(raw);
      var temp := Int16(raw / 0x10);           // (int16_t)(full_read >> 4)
      if HasBit16(temp, 0x800) {
        temp := temp % 0x800;                  // &= 0x07FF
        temp := Int16(temp + 0x8000);          // |= 0x8000, stored back in the int16_t
      } else {
        temp := temp % 0x800;                  // &= 0x07FF
      }
      lastJunctionRef := temp;
    }

    /** `getTemperature`: -1 unless the status is Ok, and then the timestamp field, not the probe value. */
    function GetTemperature(): (t: int)
      reads this
      ensures lastStatus != Ok ==> t == -1
      ensures lastStatus == Ok ==> t == lastReading
    {
      if lastStatus == Ok then lastReading else -1
    }

    /** `getJunctionReference`: the stored junction count. */
    function GetJunctionReference(): (t: int)
      reads this
      ensures t == Current().junctionRef
    {
      lastJunctionRef
    }

    /** `getStatus`: the stored status. */
    function GetStatus(): (s: Status)
      reads this
      ensures s == Current().status
    {
      lastStatus
    }

    /** `toJson`: the record's keys and values, in the order they are printed. */
    function ToJson(): (record: seq<(string, JsonValue)>)
      reads this
      ensures Keys(record) == ["channel", "status_code", "status", "junction", "value"]
    {
      [ ("channel", Integer(channel)),
        ("status_code", Integer(Code(lastStatus))),
        ("status", Text(StatusToString(lastStatus))),
        ("junction", Fixed(lastJunctionRef, 16)),
        ("value", Fixed(lastValue, 4)) ]
    }
  }

  /** The status code in a record names the driver's status, and the label next to it matches. */
  lemma ToJsonStatus(d: Driver)
    ensures d.ToJson()[1].1.Integer? && FromCode(d.ToJson()[1].1.i) == Some(d.lastStatus)
    ensures d.ToJson()[2].1 == Text(StatusToString(d.lastStatus))
    ensures d.ToJson()[0].1 == Integer(d.channel)
  {
    CodeRoundTrip(d.lastStatus, 0);
  }
}
