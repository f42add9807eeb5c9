/**
 * Encoding what was decoded does not always give back the same payload. The
 * decoder files every `CommandName` enum of the table under
 * `hardcodedEnums`, and the encoder's pass visits `hardcodedEnums` before the
 * commands. So a `CommandName` enum that the first encoding reached only
 * through a command moves ahead of the enums met before it. The enum table
 * and the value pool are then written in another order.
 */
module Reencode {
  import opened Wrappers
  import opened Wire
  import opened Commands
  import opened Prepass
  import opened Decoder
  import opened Encoder
  import opened RoundTrip

  const AliasEnum: CommandEnum := CommandEnum("X", ["x"])
  const NameEnum: CommandEnum := CommandEnum("CommandName", ["c"])

  /** Command "a" has the alias enum "X"; command "b" has one parameter whose enum is `CommandName`; nothing is hardcoded. */
  function ReorderExample(): PacketModel {
    PacketModel(
      [CommandData("a", "", 0, 0, Some(AliasEnum), []),
       CommandData("b", "", 0, 0, None, [[CommandParameter("p", 0, false, 0, Some(NameEnum), None)]])],
      [], [], [])
  }

  /** What the decoder gives back for the example: `CommandName` is hardcoded and the parameter carries its type word. */
  function DecodedExample(): PacketModel {
    PacketModel(
      [CommandData("a", "", 0, 0, Some(AliasEnum), []),
       CommandData("b", "", 0, 0, None, [[CommandParameter("p", 0x300001, false, 0, Some(NameEnum), None)]])],
      [NameEnum], [], [])
  }

  /** The tables the pass builds for the example: "X" before `CommandName`, "x" before "c". */
  const ExampleBuilt: Tables :=
    Tables(IndexMap(["x", "c"], map["x" := 0, "c" := 1]), EmptyIndexMap,
           IndexMap(["X", "CommandName"], map["X" := 0, "CommandName" := 1]), [AliasEnum, NameEnum])

  /** The pass over the example tables "X" first and pools "x" before "c". */
  lemma ExampleTables()
    ensures Build(ReorderExample()) == ExampleBuilt
  {
    var m := ReorderExample();
    var c1, c2 := m.commandData[0], m.commandData[1];
    var p := c2.overloads[0][0];
    var t1 := AddEnum(EmptyTables, AliasEnum);
    assert t1.enumValueIndexes == IndexMap(["x"], map["x" := 0]);
    assert AddCommand(EmptyTables, c1) == t1;
    var t2 := AddEnum(t1, NameEnum);
    assert AddParameter(t1, p) == t2;
    assert AddParameters(t1, [p]) == AddParameters(t2, []);
    assert AddOverloads(t1, [[p]]) == AddOverloads(t2, []);
    assert AddCommand(t1, c2) == t2;
    assert AddCommands(t1, [c2]) == AddCommands(t2, []);
    assert m.commandData[1..] == [c2];
    assert AddCommands(EmptyTables, m.commandData) == AddCommands(t1, [c2]);
  }

  /** The pass visits "X" and then `CommandName`. */
  lemma ExampleVisits()
    ensures VisitedEnums(ReorderExample()) == [AliasEnum, NameEnum]
  {
    var m := ReorderExample();
    var c2 := m.commandData[1];
    var p := c2.overloads[0][0];
    assert ParameterVisit(p) == [EnumVisit(NameEnum)];
    assert ParameterVisits([p]) == [EnumVisit(NameEnum)];
    assert OverloadVisits([[p]]) == [EnumVisit(NameEnum)];
    assert CommandVisits([c2]) == [EnumVisit(NameEnum)];
    assert m.commandData[1..] == [c2];
    assert CommandVisits(m.commandData) == [EnumVisit(AliasEnum), EnumVisit(NameEnum)];
    assert Visits(m) == [EnumVisit(AliasEnum), EnumVisit(NameEnum)];
    assert EnumsOf([EnumVisit(NameEnum)]) == [NameEnum];
  }

  /** Decoding the example's encoding gives `DecodedExample`. */
  lemma ExampleCanonical()
    ensures Canonical(ReorderExample()) == DecodedExample()
  {
    var m := ReorderExample();
    var t := Build(m);
    ExampleTables();
    ParamType.EnumTypeWordClassifies(1);
    var p := m.commandData[1].overloads[0][0];
    assert CanonicalParameter(p, t) == DecodedExample().commandData[1].overloads[0][0];
    assert CanonicalOverload([p], t) == [CanonicalParameter(p, t)];
    assert CanonicalCommand(m.commandData[1], t) == DecodedExample().commandData[1];
    assert CanonicalCommand(m.commandData[0], t) == DecodedExample().commandData[0];
    assert HardcodedOf([AliasEnum]) == [];
    assert [AliasEnum, NameEnum][..1] == [AliasEnum];
    assert HardcodedOf(t.enums) == [NameEnum];
  }

  /** The pass over the decoded example tables `CommandName` first and pools "c" before "x". */
  lemma DecodedTables()
    ensures Build(DecodedExample()).enumValueIndexes.keys == ["c", "x"]
  {
    var d := DecodedExample();
    var c1, c2 := d.commandData[0], d.commandData[1];
    var p := c2.overloads[0][0];
    var t1 := AddEnum(EmptyTables, NameEnum);
    assert t1.enumValueIndexes == IndexMap(["c"], map["c" := 0]);
    assert t1.enumIndexes == IndexMap(["CommandName"], map["CommandName" := 0]);
    assert AddEnums(EmptyTables, [NameEnum]) == AddEnums(t1, []);
    var t2 := AddEnum(t1, AliasEnum);
    assert t2.enumValueIndexes.keys == ["c", "x"];
    assert AddCommand(t1, c1) == t2;
    assert "CommandName" in t2.enumIndexes.index;
    assert AddEnum(t2, NameEnum) == t2;
    assert AddParameter(t2, p) == t2;
    assert AddParameters(t2, [p]) == AddParameters(t2, []);
    assert AddOverloads(t2, [[p]]) == AddOverloads(t2, []);
    assert AddCommand(t2, c2) == t2;
    assert AddCommands(t2, [c2]) == AddCommands(t2, []);
    assert d.commandData[1..] == [c2];
    assert AddCommands(t1, d.commandData) == AddCommands(t2, [c2]);
  }

  /** The first string of an encoded payload is the first pooled value. */
  lemma FirstPooledValue(m: PacketModel)
    requires Encode(m).Some? && |Build(m).enumValueIndexes.keys| > 0
    ensures |Encode(m).value| > 1 && Encode(m).value[1] == Str(Build(m).enumValueIndexes.keys[0])
  {
    var keys := Build(m).enumValueIndexes.keys;
    var pool := PutList(keys, StringWriter());
    assert PutAll(keys, StringWriter()) == Some([Str(keys[0])] + PutAll(keys[1..], StringWriter()).value);
    assert pool.value[1] == Str(keys[0]);
    assert Encode(m).value[..|pool.value|] == pool.value;
  }

  lemma ExampleUniqueNames()
    ensures UniqueNames(ReorderExample())
  {
    ExampleVisits();
  }

  /** An array of two distinct keys, stored under 0 and 1, is consistent. */
  lemma TwoKeysValid(a: string, b: string)
    requires a != b
    ensures IndexMap([a, b], map[a := 0, b := 1]).Valid()
  {
    var m := IndexMap([a, b], map[a := 0, b := 1]);
    forall i | 0 <= i < |m.keys| ensures m.keys[i] in m.index && m.index[m.keys[i]] == i {
      if i == 1 { assert m.keys[1] == b; }
    }
  }

  lemma BuiltTablesFit()
    ensures TablesFit(ExampleBuilt)
  {
    var t := ExampleBuilt;
    TwoKeysValid("X", "CommandName");
    TwoKeysValid("x", "c");
    assert forall i, v :: 0 <= i < |t.enums| && v in t.enums[i].values ==> v in t.enumValueIndexes.index by {
      assert t.enums[0].values == ["x"] && t.enums[1].values == ["c"];
    }
  }

  lemma ExampleTablesFit()
    ensures TablesFit(Build(ReorderExample()))
  {
    ExampleTables();
    BuiltTablesFit();
  }

  lemma ExampleCommandsFit()
    ensures forall c :: c in ReorderExample().commandData ==> CommandFits(c)
  {
    var cs := ReorderExample().commandData;
    assert CommandFits(cs[0]);
    assert CommandFits(cs[1]) by {
      var o := cs[1].overloads[0];
      assert forall o', p :: o' in cs[1].overloads && p in o' ==> p == o[0];
    }
  }

  lemma ExampleWellFormed()
    ensures WellFormed(ReorderExample())
  {
    ExampleUniqueNames();
    ExampleTablesFit();
    ExampleCommandsFit();
  }

  /** The example's encoding decodes to `DecodedExample`, and starts its pool with "x". */
  lemma ExampleRoundTrip()
    ensures Encode(ReorderExample()).Some?
    ensures Decode(Encode(ReorderExample()).value) == Some(Parsed(DecodedExample(), []))
    ensures |Encode(ReorderExample()).value| > 1 && Encode(ReorderExample()).value[1] == Str("x")
  {
    var m := ReorderExample();
    ExampleWellFormed();
    ExampleCanonical();
    DecodeEncode(m, []);
    assert Encode(m).value + [] == Encode(m).value;
    ExampleTables();
    FirstPooledValue(m);
  }

  /** The decoded example encodes, starting its pool with "c". */
  lemma DecodedEncoding()
    ensures Encode(DecodedExample()).Some?
    ensures |Encode(DecodedExample()).value| > 1 && Encode(DecodedExample()).value[1] == Str("c")
  {
    var d := DecodedExample();
    EncodeSome(d);
    DecodedTables();
    FirstPooledValue(d);
  }

  /**
   * The example is well formed and survives a round trip, but encoding the
   * decoded packet writes "c" where the first encoding wrote "x": re-encoding
   * is not idempotent.
   */
  lemma ReencodeReorders()
    ensures WellFormed(ReorderExample())
    ensures Encode(ReorderExample()).Some?
    ensures Decode(Encode(ReorderExample()).value) == Some(Parsed(DecodedExample(), []))
    ensures Encode(DecodedExample()).Some?
    ensures Encode(DecodedExample()) != Encode(ReorderExample())
  {
    ExampleWellFormed();
    ExampleRoundTrip();
    DecodedEncoding();
  }
}
