/**
 * The telemetry lines `processCommand` (`T O`) and `loop` (streaming) print:
 * a JSON array of per-channel records, and in status streaming the door
 * state after it.
 *
 * Serial output is a sequence of tokens, one per `Serial.print`; a channel's
 * record stands for the text `toJson` makes of that channel's reading.
 */
module Telemetry {
  import opened Prelude
  import opened Max31855
  import Command
  import Config

  /** One `Serial.print`: literal text, or the JSON record of a channel. */
  datatype Token = Out(text: string) | Record(channel: nat, reading: Reading)

  /** `Serial.println(s)`: the text followed by a carriage return and a line feed. */
  function Println(s: string): Token
  {
    Out(s + "\r\n")
  }

  const ArrayOpen: string := "{ \"temperature\": ["
  const Comma: Token := Out(",")

  /** The enabled channels among the first k, in ascending order. */
  function Enabled(enabled: seq<bool>, k: nat): (cs: seq<nat>)
    requires k <= |enabled|
    ensures forall i :: 0 <= i < |cs| ==> cs[i] < k && enabled[cs[i]]
  {
    if k == 0 then [] else Enabled(enabled, k - 1) + (if enabled[k - 1] then [k - 1] else [])
  }

  /** The enabled channels are listed in ascending order, and every one of them is listed. */
  lemma {:induction false} EnabledComplete(enabled: seq<bool>, k: nat)
    requires k <= |enabled|
    ensures var cs := Enabled(enabled, k);
      && (forall i, j :: 0 <= i < j < |cs| ==> cs[i] < cs[j])
      && (forall c :: 0 <= c < k && enabled[c] ==> c in cs)
  {
    if k > 0 {
      EnabledComplete(enabled, k - 1);
      var before := Enabled(enabled, k - 1);
      var cs := Enabled(enabled, k);
      if enabled[k - 1] {
        assert cs == before + [k - 1];
        assert k - 1 in cs;
      } else {
        assert cs == before;
      }
    }
  }

  /** Items with a comma between each two: the reference shape of a JSON array's body. */
  function Separated(items: seq<Token>): (t: seq<Token>)
    ensures |items| > 0 ==> |t| == 2 * |items| - 1
    ensures items == [] ==> t == []
  {
    if |items| <= 1 then items else Separated(items[..|items| - 1]) + [Comma, items[|items| - 1]]
  }

  /** In a separated list the items sit at the even places. */
  lemma SeparatedItems(items: seq<Token>)
    ensures forall i :: 0 <= i < |items| ==> Separated(items)[2 * i] == items[i]
  {
    forall i | 0 <= i < |items|
      ensures Separated(items)[2 * i] == items[i]
    {
      SeparatedItemAt(items, i);
    }
  }

  /** In a separated list the commas sit at the odd places. */
  lemma SeparatedCommas(items: seq<Token>)
    ensures forall i :: 0 <= i < |items| - 1 ==> Separated(items)[2 * i + 1] == Comma
  {
    forall i | 0 <= i < |items| - 1
      ensures Separated(items)[2 * i + 1] == Comma
    {
      SeparatedCommaAt(items, i);
    }
  }

  /** Item i of a separated list is at place 2i. */
  lemma {:induction false} SeparatedItemAt(items: seq<Token>, i: nat)
    requires i < |items|
    ensures Separated(items)[2 * i] == items[i]
    decreases |items|
  {
    if |items| > 1 {
      var front := items[..|items| - 1];
      var f := Separated(front);
      assert Separated(items) == f + [Comma, items[|items| - 1]];
      if i < |front| {
        SeparatedItemAt(front, i);
        assert front[i] == items[i];
      } else {
        assert 2 * i == |f| + 1;
      }
    }
  }

  /** Place 2i + 1 of a separated list holds a comma. */
  lemma {:induction false} SeparatedCommaAt(items: seq<Token>, i: nat)
    requires i < |items| - 1
    ensures Separated(items)[2 * i + 1] == Comma
    decreases |items|
  {
    var front := items[..|items| - 1];
    var f := Separated(front);
    assert Separated(items) == f + [Comma, items[|items| - 1]];
    if i < |front| - 1 {
      SeparatedCommaAt(front, i);
    } else {
      assert 2 * i + 1 == |f|;
    }
  }

  /** One more item extends a separated list by a comma and the item, or starts it. */
  lemma SeparatedAppend(items: seq<Token>, item: Token)
    ensures Separated(items + [item]) == if items == [] then [item] else Separated(items) + [Comma, item]
  {
    var all := items + [item];
    assert all[..|all| - 1] == items;
  }

  /** The records of the given channels, in the given order. */
  function Records(channels: seq<nat>, readings: seq<Reading>): (t: seq<Token>)
    requires forall i :: 0 <= i < |channels| ==> channels[i] < |readings|
    ensures |t| == |channels|
    ensures forall i :: 0 <= i < |t| ==> t[i] == Record(channels[i], readings[channels[i]])
  {
    seq(|channels|, i requires 0 <= i < |channels| => Record(channels[i], readings[channels[i]]))
  }

  /** The records of one more channel. */
  lemma RecordsAppend(channels: seq<nat>, c: nat, readings: seq<Reading>)
    requires forall i :: 0 <= i < |channels| ==> channels[i] < |readings|
    requires c < |readings|
    ensures Records(channels + [c], readings) == Records(channels, readings) + [Record(c, readings[c])]
  {
  }

  /**
   * The print loop over the first k channels: a record for each enabled
   * one, preceded by a comma when an earlier record was printed.
   */
  function PrintLoop(enabled: seq<bool>, readings: seq<Reading>, k: nat): seq<Token>
    requires k <= |enabled| == |readings|
  {
    if k == 0 then []
    else
      PrintLoop(enabled, readings, k - 1)
      + (if !enabled[k - 1] then []
         else (if Enabled(enabled, k - 1) != [] then [Comma] else []) + [Record(k - 1, readings[k - 1])])
  }

  /**
   * The print loop prints the records of the enabled channels in ascending
   * order, with commas only between records.
   */
  lemma {:induction false} PrintLoopSeparated(enabled: seq<bool>, readings: seq<Reading>, k: nat)
    requires k <= |enabled| == |readings|
    ensures PrintLoop(enabled, readings, k) == Separated(Records(Enabled(enabled, k), readings))
  {
    if k > 0 {
      PrintLoopSeparated(enabled, readings, k - 1);
      if enabled[k - 1] {
        PrintLoopRecordStep(enabled, readings, k);
      } else {
        assert Enabled(enabled, k) == Enabled(enabled, k - 1);
        assert PrintLoop(enabled, readings, k) == PrintLoop(enabled, readings, k - 1) + [];
      }
    } else {
      assert Records(Enabled(enabled, 0), readings) == [];
    }
  }

  /** The step of `PrintLoopSeparated` at an enabled channel: its record joins the list. */
  lemma PrintLoopRecordStep(enabled: seq<bool>, readings: seq<Reading>, k: nat)
    requires 0 < k <= |enabled| == |readings| && enabled[k - 1]
    requires PrintLoop(enabled, readings, k - 1) == Separated(Records(Enabled(enabled, k - 1), readings))
    ensures PrintLoop(enabled, readings, k) == Separated(Records(Enabled(enabled, k), readings))
  {
    var cs := Enabled(enabled, k - 1);
    var before := Records(cs, readings);
    var p := PrintLoop(enabled, readings, k - 1);
    var rec := Record(k - 1, readings[k - 1]);
    var tail := (if cs != [] then [Comma] else []) + [rec];
    assert PrintLoop(enabled, readings, k) == p + tail;
    assert Enabled(enabled, k) == cs + [k - 1];
    RecordsAppend(cs, k - 1, readings);
    assert Records(Enabled(enabled, k), readings) == before + [rec];
    SeparatedAppend(before, rec);
    if cs == [] {
      assert before == [] && p == [] && tail == [rec];
    } else {
      assert before != [] && tail == [Comma, rec];
    }
  }

  /** The line `T O` prints. */
  function OneShotReport(enabled: seq<bool>, readings: seq<Reading>): seq<Token>
    requires |enabled| == |readings|
  {
    [Out(ArrayOpen)] + PrintLoop(enabled, readings, |enabled|) + [Println("]}")]
  }

  /** The door block of status streaming. */
  function DoorBlock(ram: Config.Ram): seq<Token>
  {
    [ Out(", \"door\": {"),
      Out("\"state\": \""),
      Out(if ram.doorOpened then "open" else "closed"),
      Out("\", "),
      Out("\"position\": "),
      Out(Command.Text(Command.Decimal(if ram.doorOpened then ram.doorOpen else ram.doorClosed))),
      Out("}") ]
  }

  /** The report `loop` prints on each pass while streaming is on. */
  function StreamReport(ram: Config.Ram, readings: seq<Reading>): seq<Token>
    requires |ram.enabled| == |readings|
  {
    [Out(ArrayOpen)] + PrintLoop(ram.enabled, readings, |ram.enabled|) + [Out("]")]
      + (if !ram.streamingStatus then [Println("")] else [])
      + (if ram.streamingStatus then DoorBlock(ram) else [])
      + [Println("}")]
  }

  /** The text tokens of the print loop are all commas. */
  lemma {:induction false} PrintLoopTexts(enabled: seq<bool>, readings: seq<Reading>, k: nat)
    requires k <= |enabled| == |readings|
    ensures forall t :: t in PrintLoop(enabled, readings, k) && t.Out? ==> t == Comma
  {
    if k > 0 {
      PrintLoopTexts(enabled, readings, k - 1);
      var tail := if !enabled[k - 1] then []
        else (if Enabled(enabled, k - 1) != [] then [Comma] else []) + [Record(k - 1, readings[k - 1])];
      assert PrintLoop(enabled, readings, k) == PrintLoop(enabled, readings, k - 1) + tail;
      assert forall t :: t in tail && t.Out? ==> t == Comma;
    }
  }

  /**
   * The report is the array, then either the door block or an empty line,
   * then the closing brace.
   */
  lemma StreamReportShape(ram: Config.Ram, readings: seq<Reading>)
    requires |ram.enabled| == |readings|
    ensures var head := [Out(ArrayOpen)] + PrintLoop(ram.enabled, readings, |ram.enabled|) + [Out("]")];
      StreamReport(ram, readings) ==
        head + (if ram.streamingStatus then DoorBlock(ram) else [Println("")]) + [Println("}")]
  {
  }

  /** The door block appears exactly when status streaming is on. */
  lemma DoorBlockAppears(ram: Config.Ram, readings: seq<Reading>)
    requires |ram.enabled| == |readings|
    ensures Out(", \"door\": {") in StreamReport(ram, readings) <==> ram.streamingStatus
  {
    var records := PrintLoop(ram.enabled, readings, |ram.enabled|);
    var door := Out(", \"door\": {");
    PrintLoopTexts(ram.enabled, readings, |ram.enabled|);
    StreamReportShape(ram, readings);
    var head := [Out(ArrayOpen)] + records + [Out("]")];
    var middle := if ram.streamingStatus then DoorBlock(ram) else [Println("")];
    assert StreamReport(ram, readings) == head + middle + [Println("}")];
    if ram.streamingStatus {
      assert middle[0] == door;
    } else {
      assert door != Comma && door != Out(ArrayOpen) && door != Out("]");
      assert door !in records;
      assert door !in head;
      assert door != Println("") && door != Println("}");
    }
  }

  /** The position shown is the open position when the door is marked open, the closed one otherwise. */
  lemma DoorBlockPosition(ram: Config.Ram)
    ensures DoorBlock(ram)[2] == Out(if ram.doorOpened then "open" else "closed")
    ensures ram.doorOpened ==> DoorBlock(ram)[5] == Out(Command.Text(Command.Decimal(ram.doorOpen)))
    ensures !ram.doorOpened ==> DoorBlock(ram)[5] == Out(Command.Text(Command.Decimal(ram.doorClosed)))
  {
  }

  /**
   * In temperature-only streaming the array ends a line of its own and the
   * closing brace follows on the next: the report ends "]", "\r\n", "}\r\n".
   */
  lemma TemperatureOnlyTail(ram: Config.Ram, readings: seq<Reading>)
    requires |ram.enabled| == |readings| && !ram.streamingStatus
    ensures var r := StreamReport(ram, readings);
      |r| >= 4 && r[|r| - 3..] == [Out("]"), Out("\r\n"), Out("}\r\n")]
  {
    assert Println("") == Out("\r\n");
    assert Println("}") == Out("}\r\n");
  }
}
