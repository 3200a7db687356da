/**
 * The serial command language: the C library's `strtol` as the firmware uses
 * it, decimal formatting, and the positional decoding of a 16-byte command
 * buffer into a command.
 */
module Command {
  import opened Prelude

  /** The size of the command buffer. */
  const BufferSize: nat := 16

  /** The character codes the decoder compares against. */
  const Space: byte := 0x20
  const Newline: byte := 0x0A
  const Zero: byte := 0x30

  /** The C `isspace` set: space, and tab through carriage return. */
  predicate IsSpace(b: byte)
  {
    b == Space || 0x09 <= b <= 0x0D
  }

  predicate IsDigit(b: byte)
  {
    Zero <= b <= Zero + 9
  }

  // ---------------------------------------------------------------------------
  // strtol

  /**
   * The first index at or after `i` whose byte is not white space; None when
   * the white space runs to the end of the buffer, in which case `strtol`
   * would go on reading the memory after it.
   */
  function SkipSpaces(line: seq<byte>, i: nat): (j: Option<nat>)
    decreases |line| - i
    ensures j.Some? ==> i <= j.value < |line| && !IsSpace(line[j.value])
    ensures j.Some? ==> forall k :: i <= k < j.value ==> IsSpace(line[k])
    ensures j.None? ==> forall k :: i <= k < |line| ==> IsSpace(line[k])
  {
    if i >= |line| then None
    else if IsSpace(line[i]) then SkipSpaces(line, i + 1)
    else Some(i)
  }

  /** The end of the run of digits that starts at `i`. */
  function DigitRun(line: seq<byte>, i: nat): (j: nat)
    requires i <= |line|
    decreases |line| - i
    ensures i <= j <= |line|
    ensures forall k :: i <= k < j ==> IsDigit(line[k])
    ensures j == |line| || !IsDigit(line[j])
  {
    if i == |line| || !IsDigit(line[i]) then i else DigitRun(line, i + 1)
  }

  /** The value of the digits `line[k..e]`, most significant first, read in place the way `strtol` accumulates them. */
  function DigitsIn(line: seq<byte>, k: nat, e: nat): nat
    requires k <= e <= |line|
    requires forall i :: k <= i < e ==> IsDigit(line[i])
    decreases e
  {
    if e == k then 0
    else
      assert IsDigit(line[e - 1]);
      DigitsIn(line, k, e - 1) * 10 + (line[e - 1] - Zero)
  }

  /** The value of a string of decimal digits. */
  function DigitsValue(ds: seq<byte>): nat
    requires forall i :: 0 <= i < |ds| ==> IsDigit(ds[i])
  {
    DigitsIn(ds, 0, |ds|)
  }

  /** Equal runs of digits have equal values, wherever they sit. */
  lemma {:induction false} DigitsInSame(a: seq<byte>, i: nat, b: seq<byte>, k: nat, n: nat)
    requires i + n <= |a| && k + n <= |b|
    requires forall t :: i <= t < i + n ==> IsDigit(a[t])
    requires a[i..i + n] == b[k..k + n]
    ensures forall t :: k <= t < k + n ==> IsDigit(b[t])
    ensures DigitsIn(a, i, i + n) == DigitsIn(b, k, k + n)
    decreases n
  {
    forall t | k <= t < k + n
      ensures IsDigit(b[t])
    {
      assert b[t] == b[k..k + n][t - k] == a[i + (t - k)];
    }
    if n > 0 {
      assert a[i..i + n - 1] == a[i..i + n][..n - 1];
      assert b[k..k + n - 1] == b[k..k + n][..n - 1];
      DigitsInSame(a, i, b, k, n - 1);
      assert a[i + n - 1] == a[i..i + n][n - 1] == b[k + n - 1];
    }
  }

  /** `strtol` saturates at the range of `long`. */
  function Clamp(v: int): (r: int)
    ensures LongMin <= r <= LongMax
    ensures LongMin <= v <= LongMax ==> r == v
  {
    if v < LongMin then LongMin else if v > LongMax then LongMax else v
  }

  /**
   * `strtol(&line[start], NULL, 10)`: white space is skipped, one sign is
   * accepted, and the digits that follow are read; without digits the result
   * is 0. None when the scan reaches the end of the buffer before a byte that
   * ends it.
   */
  function StrToL(line: seq<byte>, start: nat): (r: Option<int>)
    ensures r.Some? ==> LongMin <= r.value <= LongMax
    ensures (forall k :: start <= k < |line| ==> IsSpace(line[k])) ==> r.None?
  {
    match SkipSpaces(line, start)
    case None => None
    case Some(j) => Number(line, j)
  }

  /**
   * `strtol` runs off the buffer exactly when only blanks remain, or when the
   * digits after the blanks and the sign run to its end.
   */
  lemma StrToLRunsOff(line: seq<byte>, start: nat)
    ensures StrToL(line, start).None? <==>
      || SkipSpaces(line, start).None?
      || var j := SkipSpaces(line, start).value;
         forall k :: SignEnd(line, j) <= k < |line| ==> IsDigit(line[k])
  {
    if SkipSpaces(line, start).Some? {
      NumberRunsOff(line, SkipSpaces(line, start).value);
    }
  }

  /** Where the digits begin after the optional sign at `line[j]`. */
  function SignEnd(line: seq<byte>, j: nat): nat
    requires j < |line|
  {
    if line[j] == '-' as byte || line[j] == '+' as byte then j + 1 else j
  }

  /**
   * The number `strtol` reads from `line[j]`, the first byte that is not
   * white space. None exactly when the digits after the sign run to the end
   * of the buffer; 0 when no digit follows the sign.
   */
  function Number(line: seq<byte>, j: nat): (r: Option<int>)
    requires j < |line|
    ensures r.Some? ==> LongMin <= r.value <= LongMax
  {
    var negative := line[j] == '-' as byte;
    var k := SignEnd(line, j);
    var e := DigitRun(line, k);
    if e == |line| then None
    else
      var magnitude: int := DigitsIn(line, k, e);
      Some(Clamp(if negative then -magnitude else magnitude))
  }

  /**
   * The number runs off the buffer exactly when the digits after the sign run
   * to its end, and it is 0 when no digit follows the sign.
   */
  lemma NumberRunsOff(line: seq<byte>, j: nat)
    requires j < |line|
    ensures Number(line, j).None? <==> forall k :: SignEnd(line, j) <= k < |line| ==> IsDigit(line[k])
    ensures var d := SignEnd(line, j);
      d < |line| && !IsDigit(line[d]) ==> Number(line, j).Some? && Number(line, j).value == 0
  {
    var d := SignEnd(line, j);
    if d < |line| && !IsDigit(line[d]) {
      assert DigitRun(line, d) == d;
    }
  }

  // ---------------------------------------------------------------------------
  // Decimal text

  /** The decimal digits of k, without leading zeros, as `Serial.print(k, DEC)` writes them. */
  function Decimal(k: nat): (ds: seq<byte>)
    ensures |ds| > 0 && forall i :: 0 <= i < |ds| ==> IsDigit(ds[i])
  {
    if k < 10 then [Zero + k] else Decimal(k / 10) + [Zero + k % 10]
  }

  /** The digits of k read back give k. */
  lemma {:induction false} DecimalValue(k: nat)
    ensures DigitsValue(Decimal(k)) == k
  {
    if k >= 10 {
      DecimalValue(k / 10);
      var ds := Decimal(k);
      var hs := Decimal(k / 10);
      assert ds[0..|hs|] == hs[0..|hs|];
      DigitsInSame(hs, 0, ds, 0, |hs|);
      assert |ds| == |hs| + 1 && ds[|hs|] == Zero + k % 10;
      assert DigitsValue(ds) == DigitsValue(hs) * 10 + k % 10;
    } else {
      assert DigitsIn(Decimal(k), 0, 0) == 0;
    }
  }

  /** The text of a byte string. */
  function Text(bs: seq<byte>): (s: string)
    ensures |s| == |bs|
  {
    seq(|bs|, i requires 0 <= i < |bs| => bs[i] as char)
  }

  /** The decimal text of an integer, with a minus sign when it is negative. */
  function SignedDecimal(v: int): (s: string)
    ensures v >= 0 ==> s == Text(Decimal(v))
    ensures v < 0 ==> s == "-" + Text(Decimal(-v))
  {
    if v < 0 then "-" + Text(Decimal(-v)) else Text(Decimal(v))
  }

  /** If a decimal number is followed by a byte that is not a digit, `strtol` reads it back. */
  lemma StrToLDecimal(k: nat, rest: seq<byte>)
    requires k <= LongMax
    requires |rest| > 0 && !IsDigit(rest[0])
    ensures StrToL(Decimal(k) + rest, 0) == Some(k)
  {
    var none: seq<byte> := [];
    StrToLSigned(none, none, none, k, rest);
    assert none + none + none + Decimal(k) + rest == Decimal(k) + rest;
  }

  /** The signs `strtol` accepts before its digits: none, a plus or a minus. */
  predicate IsSign(sign: seq<byte>)
  {
    sign == [] || sign == ['+' as byte] || sign == ['-' as byte]
  }

  /** The blank skip of `strtol` stops at the first byte that is not white space. */
  lemma {:induction false} SkipSpacesStops(line: seq<byte>, i: nat, j: nat)
    requires i <= j < |line|
    requires forall k :: i <= k < j ==> IsSpace(line[k])
    requires !IsSpace(line[j])
    ensures SkipSpaces(line, i) == Some(j)
    decreases j - i
  {
    if i < j {
      SkipSpacesStops(line, i + 1, j);
    }
  }

  /**
   * `strtol` from `|pre|` skips the blanks, takes the sign, and reads the
   * decimal digits of k up to the first non-digit, saturating at the range
   * of `long`.
   */
  lemma StrToLSigned(pre: seq<byte>, blanks: seq<byte>, sign: seq<byte>, k: nat, rest: seq<byte>)
    requires forall i :: 0 <= i < |blanks| ==> IsSpace(blanks[i])
    requires IsSign(sign)
    requires |rest| > 0 && !IsDigit(rest[0])
    ensures StrToL(pre + blanks + sign + Decimal(k) + rest, |pre|)
      == Some(Clamp(if sign == ['-' as byte] then -(k as int) else k))
  {
    var ds := Decimal(k);
    var tail := sign + ds + rest;
    var line := pre + blanks + sign + ds + rest;
    var j := |pre| + |blanks|;
    assert line == (pre + blanks) + tail;
    assert line[j..] == tail;
    forall i | |pre| <= i < j
      ensures IsSpace(line[i])
    {
      assert line[i] == blanks[i - |pre|];
    }
    DecimalValue(k);
    BlanksThenNumber(line, |pre|, j, sign, ds, rest, k);
  }

  /** `strtol` from `start` over blanks up to `j`, then a sign, the digits ds and a non-digit. */
  lemma BlanksThenNumber(line: seq<byte>, start: nat, j: nat, sign: seq<byte>, ds: seq<byte>, rest: seq<byte>, v: nat)
    requires start <= j <= |line| && line[j..] == sign + ds + rest
    requires forall i :: start <= i < j ==> IsSpace(line[i])
    requires IsSign(sign)
    requires |ds| > 0 && forall i :: 0 <= i < |ds| ==> IsDigit(ds[i])
    requires |rest| > 0 && !IsDigit(rest[0])
    requires DigitsValue(ds) == v
    ensures StrToL(line, start) == Some(Clamp(if sign == ['-' as byte] then -(v as int) else v))
  {
    assert line[j] == line[j..][0] == if sign == [] then ds[0] else sign[0];
    SkipSpacesStops(line, start, j);
    SignedDigits(line, j, sign, ds, rest);
  }

  /** `strtol`'s number from `line[j]` when a sign, the digits of k and a non-digit follow. */
  lemma SignedDigits(line: seq<byte>, j: nat, sign: seq<byte>, ds: seq<byte>, rest: seq<byte>)
    requires j <= |line| && line[j..] == sign + ds + rest
    requires IsSign(sign)
    requires |ds| > 0 && forall i :: 0 <= i < |ds| ==> IsDigit(ds[i])
    requires |rest| > 0 && !IsDigit(rest[0])
    ensures j < |line|
    ensures Number(line, j)
      == Some(Clamp(if sign == ['-' as byte] then -(DigitsValue(ds) as int) else DigitsValue(ds)))
  {
    var tail := sign + ds + rest;
    var d := j + |sign|;
    assert line[j] == if sign == [] then ds[0] else sign[0];
    assert (line[j] == '-' as byte) == (sign == ['-' as byte]);
    assert SignEnd(line, j) == d;
    SuffixSlice(line, j, |sign|, |sign| + |ds|);
    assert tail[|sign|..|sign| + |ds|] == ds;
    assert line[d + |ds|] == tail[|sign| + |ds|] == rest[0];
    DigitsThenStop(line, j, ds);
  }

  /** A slice of a suffix is a slice of the whole. */
  lemma SuffixSlice(line: seq<byte>, j: nat, a: nat, b: nat)
    requires j <= |line| && a <= b <= |line| - j
    ensures line[j..][a..b] == line[j + a..j + b]
  {
  }

  /** `strtol`'s number from `line[j]` when the digits ds after the sign end at a non-digit. */
  lemma DigitsThenStop(line: seq<byte>, j: nat, ds: seq<byte>)
    requires j < |line| && SignEnd(line, j) + |ds| < |line|
    requires forall i :: 0 <= i < |ds| ==> IsDigit(ds[i])
    requires line[SignEnd(line, j)..SignEnd(line, j) + |ds|] == ds
    requires !IsDigit(line[SignEnd(line, j) + |ds|])
    ensures Number(line, j)
      == Some(Clamp(if line[j] == '-' as byte then -(DigitsValue(ds) as int) else DigitsValue(ds)))
  {
    var d := SignEnd(line, j);
    var e := d + |ds|;
    forall i | d <= i < e
      ensures IsDigit(line[i])
    {
      assert line[i] == line[d..e][i - d];
    }
    DigitRunStops(line, d, e);
    NumberEnds(line, j, e);
    assert line[d..e] == ds[0..|ds|];
    DigitsInSame(line, d, ds, 0, |ds|);
  }

  /** The number read from `line[j]` when its digits end at `e`, before the end of the buffer. */
  lemma NumberEnds(line: seq<byte>, j: nat, e: nat)
    requires j < |line| && DigitRun(line, SignEnd(line, j)) == e < |line|
    ensures var d := SignEnd(line, j);
      Number(line, j)
      == Some(Clamp(if line[j] == '-' as byte then -(DigitsIn(line, d, e) as int) else DigitsIn(line, d, e)))
  {
  }

  /** Blanks and a sign with no digit after them read as 0. */
  lemma StrToLNoDigits(pre: seq<byte>, blanks: seq<byte>, sign: seq<byte>, rest: seq<byte>)
    requires forall i :: 0 <= i < |blanks| ==> IsSpace(blanks[i])
    requires IsSign(sign)
    requires |rest| > 0 && !IsDigit(rest[0])
    requires sign == [] ==> !IsSpace(rest[0]) && rest[0] != '+' as byte && rest[0] != '-' as byte
    ensures StrToL(pre + blanks + sign + rest, |pre|) == Some(0)
  {
    var line := pre + blanks + sign + rest;
    var j := |pre| + |blanks|;
    var d := j + |sign|;
    assert forall i :: |pre| <= i < j ==> line[i] == blanks[i - |pre|];
    assert line[j] == if sign == [] then rest[0] else sign[0];
    SkipSpacesStops(line, |pre|, j);
    assert SignEnd(line, j) == d;
    assert line[d] == rest[0];
    NumberRunsOff(line, j);
  }

  /** A run of digits that is followed by a non-digit ends there. */
  lemma {:induction false} DigitRunStops(line: seq<byte>, i: nat, j: nat)
    requires i <= j < |line|
    requires forall k :: i <= k < j ==> IsDigit(line[k])
    requires !IsDigit(line[j])
    ensures DigitRun(line, i) == j
    decreases j - i
  {
    if i < j {
      DigitRunStops(line, i + 1, j);
    }
  }

  // ---------------------------------------------------------------------------
  // The commands

  /**
   * A command buffer decoded the way `processCommand` reads it. Channel and
   * state numbers are the raw `buf[3] - '0'` values; a missing number is a
   * `strtol` that would read past the buffer.
   */
  datatype Command =
    | EnableChannel(channel: int)
    | DisableChannel(channel: int)
    | OneShot
    | StreamTemperature(state: int, interval: Option<int>)
    | Calibrate(closed: Option<int>, open: Option<int>)
    | OpenDoor(ms: Option<int>)
    | ShutDoor(ms: Option<int>)
    | StreamStatus(statusState: byte, statusInterval: Option<int>)
    | NoCommand

  /**
   * The first space at or after index `i`: where `D C` starts reading the open
   * position. The scan in the firmware has no bound, so when there is none in
   * the buffer it reads past it; that is None here.
   */
  function FindSpace(line: seq<byte>, i: nat): (j: Option<nat>)
    decreases |line| - i
    ensures j.Some? ==> i <= j.value < |line| && line[j.value] == Space
    ensures j.Some? ==> forall k :: i <= k < j.value ==> line[k] != Space
    ensures j.None? ==> forall k :: i <= k < |line| ==> line[k] != Space
  {
    if i >= |line| then None
    else if line[i] == Space then Some(i)
    else FindSpace(line, i + 1)
  }

  /** The door's open position: read from the first space after the closed position. */
  function OpenPosition(line: seq<byte>): Option<int>
  {
    match FindSpace(line, 4)
    case None => None
    case Some(j) => StrToL(line, j)
  }

  /**
   * The positional decoding: the family from byte 0, the sub-command from
   * byte 2, a channel or state digit from byte 3, numbers from byte 3 or 4.
   */
  function Parse(line: seq<byte>): Command
    requires |line| == BufferSize
  {
    if line[0] == 'T' as byte then
      if line[2] == 'E' as byte then EnableChannel(SignedChar(line[3]) - Zero)
      else if line[2] == 'D' as byte then DisableChannel(SignedChar(line[3]) - Zero)
      else if line[2] == 'O' as byte then OneShot
      else if line[2] == 'S' as byte then StreamTemperature(SignedChar(line[3]) - Zero, StrToL(line, 4))
      else NoCommand
    else if line[0] == 'D' as byte then
      if line[2] == 'C' as byte then Calibrate(StrToL(line, 4), OpenPosition(line))
      else if line[2] == 'O' as byte then OpenDoor(StrToL(line, 3))
      else if line[2] == 'S' as byte then ShutDoor(StrToL(line, 3))
      else NoCommand
    else if line[0] == 'S' as byte then
      StreamStatus((line[3] - Zero) % 0x100, StrToL(line, 4))
    else NoCommand
  }

  /** Byte 1 is never looked at: the command is the same whatever it holds. */
  lemma ParseIgnoresByteOne(line: seq<byte>, b: byte)
    requires |line| == BufferSize
    ensures Parse(line[1 := b]) == Parse(line)
  {
    var l2 := line[1 := b];
    StrToLIgnoresPrefix(line, l2, 4);
    StrToLIgnoresPrefix(line, l2, 3);
    OpenPositionIgnoresPrefix(line, l2);
    ParseOfFields(line, l2);
  }

  /** Two lines that agree in bytes 0, 2 and 3 and in the numbers read from them decode alike. */
  lemma ParseOfFields(a: seq<byte>, b: seq<byte>)
    requires |a| == |b| == BufferSize
    requires a[0] == b[0] && a[2] == b[2] && a[3] == b[3]
    requires StrToL(a, 3) == StrToL(b, 3) && StrToL(a, 4) == StrToL(b, 4) && OpenPosition(a) == OpenPosition(b)
    ensures Parse(a) == Parse(b)
  {
    var digit := SignedChar(a[3]) - Zero;
    assert SignedChar(b[3]) - Zero == digit;
    if a[0] == 'T' as byte {
      if a[2] == 'E' as byte {
        assert Parse(a) == EnableChannel(digit) == Parse(b);
      } else if a[2] == 'D' as byte {
        assert Parse(a) == DisableChannel(digit) == Parse(b);
      } else if a[2] == 'S' as byte {
        assert Parse(a) == StreamTemperature(digit, StrToL(a, 4)) == Parse(b);
      }
    } else if a[0] == 'D' as byte {
      if a[2] == 'C' as byte {
        assert Parse(a) == Calibrate(StrToL(a, 4), OpenPosition(a)) == Parse(b);
      } else if a[2] == 'O' as byte {
        assert Parse(a) == OpenDoor(StrToL(a, 3)) == Parse(b);
      } else if a[2] == 'S' as byte {
        assert Parse(a) == ShutDoor(StrToL(a, 3)) == Parse(b);
      }
    } else if a[0] == 'S' as byte {
      assert Parse(a) == StreamStatus((a[3] - Zero) % 0x100, StrToL(a, 4)) == Parse(b);
    }
  }

  /** `strtol` from `start` looks only at the bytes from `start` on. */
  lemma StrToLIgnoresPrefix(a: seq<byte>, b: seq<byte>, start: nat)
    requires |a| == |b| && forall k :: start <= k < |a| ==> a[k] == b[k]
    ensures StrToL(a, start) == StrToL(b, start)
  {
    SkipSpacesIgnoresPrefix(a, b, start);
    match SkipSpaces(a, start)
    case None =>
    case Some(j) => NumberIgnoresPrefix(a, b, j);
  }

  lemma NumberIgnoresPrefix(a: seq<byte>, b: seq<byte>, j: nat)
    requires j < |a| == |b| && forall k :: j <= k < |a| ==> a[k] == b[k]
    ensures Number(a, j) == Number(b, j)
  {
    assert a[j] == b[j];
    var k := if a[j] == '-' as byte || a[j] == '+' as byte then j + 1 else j;
    DigitRunIgnoresPrefix(a, b, k);
    var e := DigitRun(a, k);
    if e < |a| {
      NumberEnds(a, j, e);
      NumberEnds(b, j, e);
      assert a[k..e] == b[k..e];
      DigitsInSame(a, k, b, k, e - k);
    }
  }

  lemma {:induction false} SkipSpacesIgnoresPrefix(a: seq<byte>, b: seq<byte>, i: nat)
    requires |a| == |b| && forall k :: i <= k < |a| ==> a[k] == b[k]
    ensures SkipSpaces(a, i) == SkipSpaces(b, i)
    decreases |a| - i
  {
    if i < |a| && IsSpace(a[i]) {
      SkipSpacesIgnoresPrefix(a, b, i + 1);
    }
  }

  lemma {:induction false} DigitRunIgnoresPrefix(a: seq<byte>, b: seq<byte>, i: nat)
    requires i <= |a| == |b| && forall k :: i <= k < |a| ==> a[k] == b[k]
    ensures DigitRun(a, i) == DigitRun(b, i)
    decreases |a| - i
  {
    if i < |a| && IsDigit(a[i]) {
      DigitRunIgnoresPrefix(a, b, i + 1);
    }
  }

  lemma {:induction false} FindSpaceIgnoresPrefix(a: seq<byte>, b: seq<byte>, i: nat)
    requires |a| == |b| && forall k :: i <= k < |a| ==> a[k] == b[k]
    ensures FindSpace(a, i) == FindSpace(b, i)
    decreases |a| - i
  {
    if i < |a| && a[i] != Space {
      FindSpaceIgnoresPrefix(a, b, i + 1);
    }
  }

  /** The open position of `D C` depends only on the bytes from index 4 on. */
  lemma OpenPositionIgnoresPrefix(a: seq<byte>, b: seq<byte>)
    requires |a| == |b| && forall k :: 4 <= k < |a| ==> a[k] == b[k]
    ensures OpenPosition(a) == OpenPosition(b)
  {
    FindSpaceIgnoresPrefix(a, b, 4);
    match FindSpace(a, 4)
    case None =>
    case Some(j) =>
      StrToLIgnoresPrefix(a, b, j);
  }

  /**
   * The status streaming state is taken from byte 3: "S1 500" has '1' in
   * byte 1 and ' ' in byte 3, so it is none of the known states.
   */
  lemma StreamStatusStateFromByteThree(line: seq<byte>)
    requires |line| == BufferSize && line[0] == 'S' as byte
    ensures Parse(line).StreamStatus?
    ensures Parse(line).statusState == 1 <==> line[3] == '1' as byte
    ensures Parse(line).statusState == 0 <==> line[3] == '0' as byte
  {
  }

  /** The channel guard compares with the channel count only: any byte below '0' gives a negative channel. */
  lemma EnableChannelBelowZero(line: seq<byte>)
    requires |line| == BufferSize && line[0] == 'T' as byte && line[2] == 'E' as byte
    ensures Parse(line) == EnableChannel(SignedChar(line[3]) - Zero)
    ensures Parse(line).channel < 0 <==> line[3] < Zero || line[3] >= 0x80
  {
  }

  /** Without a space from byte 4 on, `D C` has no open position to read. */
  lemma CalibrateWithoutSpace(line: seq<byte>)
    requires |line| == BufferSize && line[0] == 'D' as byte && line[2] == 'C' as byte
    requires forall i :: 4 <= i < BufferSize ==> line[i] != Space
    ensures Parse(line).Calibrate? && Parse(line).open == None
  {
  }

  /** `D C 10 370` sets the closed position to 10 and the open position to 370. */
  lemma CalibrateExample(line: seq<byte>)
    requires |line| == BufferSize
    requires line[..11] == ['D' as byte, Space, 'C' as byte, Space, '1' as byte, '0' as byte, Space,
                            '3' as byte, '7' as byte, '0' as byte, Newline]
    ensures Parse(line) == Calibrate(Some(10), Some(370))
  {
    assert line[0] == line[..11][0] && line[2] == line[..11][2];
    assert Parse(line) == Calibrate(StrToL(line, 4), OpenPosition(line));
    ClosedTen(line);
    OpenThreeSeventy(line);
  }

  lemma ClosedTen(line: seq<byte>)
    requires |line| == BufferSize
    requires line[..11] == ['D' as byte, Space, 'C' as byte, Space, '1' as byte, '0' as byte, Space,
                            '3' as byte, '7' as byte, '0' as byte, Newline]
    ensures StrToL(line, 4) == Some(10)
  {
    var ds := Decimal(10);
    assert ds == ['1' as byte, '0' as byte];
    assert line[4..] == [] + ds + line[6..];
    assert line[6] == line[..11][6];
    DecimalValue(10);
    BlanksThenNumber(line, 4, 4, [], ds, line[6..], 10);
  }

  lemma OpenThreeSeventy(line: seq<byte>)
    requires |line| == BufferSize
    requires line[..11] == ['D' as byte, Space, 'C' as byte, Space, '1' as byte, '0' as byte, Space,
                            '3' as byte, '7' as byte, '0' as byte, Newline]
    ensures OpenPosition(line) == Some(370)
  {
    assert line[4] == line[..11][4] && line[5] == line[..11][5] && line[6] == line[..11][6];
    assert FindSpace(line, 4) == Some(6);
    var ds := Decimal(370);
    assert ds == ['3' as byte, '7' as byte, '0' as byte];
    assert line[7..] == [] + ds + line[10..];
    assert line[10] == line[..11][10];
    DecimalValue(370);
    BlanksThenNumber(line, 6, 7, [], ds, line[10..], 370);
  }

  /** `T S1 500` starts temperature streaming with an interval of 500 ms. */
  lemma StreamTemperatureExample(line: seq<byte>)
    requires |line| == BufferSize
    requires line[..9] == ['T' as byte, Space, 'S' as byte, '1' as byte, Space,
                           '5' as byte, '0' as byte, '0' as byte, Newline]
    ensures Parse(line) == StreamTemperature(1, Some(500))
  {
    assert line[0] == line[..9][0] && line[2] == line[..9][2] && line[3] == line[..9][3];
    assert Parse(line) == StreamTemperature(1, StrToL(line, 4));
    var ds := Decimal(500);
    assert ds == ['5' as byte, '0' as byte, '0' as byte];
    assert line[5..] == [] + ds + line[8..];
    assert line[4] == line[..9][4] && line[8] == line[..9][8];
    DecimalValue(500);
    BlanksThenNumber(line, 4, 5, [], ds, line[8..], 500);
  }
}
