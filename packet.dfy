/**
 * The packet object itself: its four public fields, and the decode and encode
 * methods with the loops the packet code runs. Each method is proved to do
 * what the corresponding function of modules Decoder and Encoder computes.
 *
 * A PHP exception is a `None` (or `false`) result. The packet code throws
 * part-way through, so on failure the fields, the cursor and the output hold
 * whatever was done before the throw; the contracts say nothing about them then.
 * For the same reason a decoded section is appended to its field once the
 * whole section has been read, where the packet code appends record by record:
 * the two differ only in what a failed decode leaves behind.
 */
module Packet {
  import opened Wrappers
  import opened Wire
  import opened Commands
  import opened ParamType
  import opened Prepass
  import opened Decoder
  import opened Encoder

  class AvailableCommandsPacket {
    var commandData: seq<CommandData>
    var hardcodedEnums: seq<CommandEnum>
    var softEnums: seq<CommandEnum>
    var enumConstraints: seq<CommandEnumConstraint>

    /** The four fields as one value. */
    function Model(): PacketModel
      reads this
    {
      PacketModel(commandData, hardcodedEnums, softEnums, enumConstraints)
    }

    constructor ()
      ensures Model() == PacketModel([], [], [], [])
    {
      commandData, hardcodedEnums, softEnums, enumConstraints := [], [], [], [];
    }

    // Decoding.

    /** `getEnumValueIndex` */
    method GetEnumValueIndex(valueCount: nat, input: Cursor) returns (r: Option<int>)
      requires input.Valid()
      modifies input
      ensures input.Valid() && Yields(ReadEnumValueIndex(valueCount, old(input.Rest())), r, input.Rest())
    {
      if valueCount < 0x100 {
        var b := input.GetByte();
        r := if b.Some? then Some(b.value) else None;
      } else if valueCount < 0x1_0000 {
        var s := input.GetLShort();
        r := if s.Some? then Some(s.value) else None;
      } else {
        var w := input.GetLInt();
        r := if w.Some? then Some(w.value) else None;
      }
    }

    /** `getEnum`: a name, then a counted loop of pool indices, each checked against the pool. */
    method GetEnum(enumValueList: seq<string>, input: Cursor) returns (r: Option<CommandEnum>)
      requires input.Valid()
      modifies input
      ensures input.Valid() && Yields(DecodeEnum(enumValueList, old(input.Rest())), r, input.Rest())
    {
      var enumName := input.GetString();
      if enumName.None? {
        return None;
      }
      var count := input.GetUnsignedVarInt();
      if count.None? {
        return None;
      }
      ghost var start := input.Rest();
      var enumValues: seq<string> := [];
      var i := 0;
      while i < count.value
        invariant input.Valid() && 0 <= i <= count.value
        invariant Repeat(EnumValueReader(enumValueList), count.value, start, []) ==
                  Repeat(EnumValueReader(enumValueList), count.value - i, input.Rest(), enumValues)
      {
        var index := GetEnumValueIndex(|enumValueList|, input);
        if index.None? || !(0 <= index.value < |enumValueList|) {
          return None;
        }
        enumValues := enumValues + [enumValueList[index.value]];
        i := i + 1;
      }
      r := Some(CommandEnum(enumName.value, enumValues));
    }

    /** One parameter of `getCommandData`'s inner loop: four fields, then the type checks in order. */
    method GetParameter(enums: seq<CommandEnum>, postfixes: seq<string>, input: Cursor) returns (r: Option<CommandParameter>)
      requires input.Valid()
      modifies input
      ensures input.Valid() && Yields(DecodeParameter(enums, postfixes, old(input.Rest())), r, input.Rest())
    {
      var paramName := input.GetString();
      if paramName.None? {
        return None;
      }
      var paramType := input.GetLInt();
      if paramType.None? {
        return None;
      }
      var isOptional := input.GetBool();
      if isOptional.None? {
        return None;
      }
      var flags := input.GetByte();
      if flags.None? {
        return None;
      }
      var parameter := CommandParameter(paramName.value, paramType.value, isOptional.value, flags.value, None, None);
      if HasFlag(parameter.paramType, ARG_FLAG_ENUM) {
        var index := Low16(parameter.paramType);
        if index >= |enums| {
          return None;
        }
        parameter := parameter.(enum := Some(enums[index]));
      } else if HasFlag(parameter.paramType, ARG_FLAG_POSTFIX) {
        var index := Low16(parameter.paramType);
        if index >= |postfixes| {
          return None;
        }
        parameter := parameter.(postfix := Some(postfixes[index]));
      } else if !HasFlag(parameter.paramType, ARG_FLAG_VALID) {
        return None;
      }
      r := Some(parameter);
    }

    /** One overload of `getCommandData`'s outer loop: a count, then the inner loop over parameters. */
    method GetOverload(enums: seq<CommandEnum>, postfixes: seq<string>, input: Cursor) returns (r: Option<seq<CommandParameter>>)
      requires input.Valid()
      modifies input
      ensures input.Valid() && Yields(ReadList(ParameterReader(enums, postfixes), old(input.Rest())), r, input.Rest())
    {
      var paramCount := input.GetUnsignedVarInt();
      if paramCount.None? {
        return None;
      }
      ghost var start := input.Rest();
      var overload: seq<CommandParameter> := [];
      var paramIndex := 0;
      while paramIndex < paramCount.value
        invariant input.Valid() && 0 <= paramIndex <= paramCount.value
        invariant Repeat(ParameterReader(enums, postfixes), paramCount.value, start, []) ==
                  Repeat(ParameterReader(enums, postfixes), paramCount.value - paramIndex, input.Rest(), overload)
      {
        var parameter := GetParameter(enums, postfixes, input);
        if parameter.None? {
          return None;
        }
        overload := overload + [parameter.value];
        paramIndex := paramIndex + 1;
      }
      r := Some(overload);
    }

    /** `getCommandData`: the header, the lenient alias lookup, then overloads of parameters in two nested loops. */
    method GetCommandData(enums: seq<CommandEnum>, postfixes: seq<string>, input: Cursor) returns (r: Option<CommandData>)
      requires input.Valid()
      modifies input
      ensures input.Valid() && Yields(DecodeCommand(enums, postfixes, old(input.Rest())), r, input.Rest())
    {
      var name := input.GetString();
      if name.None? {
        return None;
      }
      var description := input.GetString();
      if description.None? {
        return None;
      }
      var flags := input.GetByte();
      if flags.None? {
        return None;
      }
      var permission := input.GetByte();
      if permission.None? {
        return None;
      }
      var aliasIndex := input.GetLInt();
      if aliasIndex.None? {
        return None;
      }
      var aliases := if 0 <= aliasIndex.value < |enums| then Some(enums[aliasIndex.value]) else None;
      var overloadCount := input.GetUnsignedVarInt();
      if overloadCount.None? {
        return None;
      }
      ghost var start := input.Rest();
      var overloads: seq<seq<CommandParameter>> := [];
      var overloadIndex := 0;
      while overloadIndex < overloadCount.value
        invariant input.Valid() && 0 <= overloadIndex <= overloadCount.value
        invariant Repeat(OverloadReader(enums, postfixes), overloadCount.value, start, []) ==
                  Repeat(OverloadReader(enums, postfixes), overloadCount.value - overloadIndex, input.Rest(), overloads)
      {
        var overload := GetOverload(enums, postfixes, input);
        if overload.None? {
          return None;
        }
        overloads := overloads + [overload.value];
        overloadIndex := overloadIndex + 1;
      }
      r := Some(CommandData(name.value, description.value, flags.value, permission.value, aliases, overloads));
    }

    /** `getSoftEnum`: a name, then a counted loop of plain strings. */
    method GetSoftEnum(input: Cursor) returns (r: Option<CommandEnum>)
      requires input.Valid()
      modifies input
      ensures input.Valid() && Yields(DecodeSoftEnum(old(input.Rest())), r, input.Rest())
    {
      var enumName := input.GetString();
      if enumName.None? {
        return None;
      }
      var count := input.GetUnsignedVarInt();
      if count.None? {
        return None;
      }
      ghost var start := input.Rest();
      var enumValues: seq<string> := [];
      var i := 0;
      while i < count.value
        invariant input.Valid() && 0 <= i <= count.value
        invariant Repeat(StringReader(), count.value, start, []) == Repeat(StringReader(), count.value - i, input.Rest(), enumValues)
      {
        var value := input.GetString();
        if value.None? {
          return None;
        }
        enumValues := enumValues + [value.value];
        i := i + 1;
      }
      r := Some(CommandEnum(enumName.value, enumValues));
    }

    /** The constraint ids of `getEnumConstraint`: a count, then that many bytes. */
    method GetConstraintIds(input: Cursor) returns (r: Option<seq<int>>)
      requires input.Valid()
      modifies input
      ensures input.Valid() && Yields(ReadList(ByteReader(), old(input.Rest())), r, input.Rest())
    {
      var count := input.GetUnsignedVarInt();
      if count.None? {
        return None;
      }
      ghost var start := input.Rest();
      var constraintIds: seq<int> := [];
      var i := 0;
      while i < count.value
        invariant input.Valid() && 0 <= i <= count.value
        invariant Repeat(ByteReader(), count.value, start, []) == Repeat(ByteReader(), count.value - i, input.Rest(), constraintIds)
      {
        var id := input.GetByte();
        if id.None? {
          return None;
        }
        constraintIds := constraintIds + [id.value];
        i := i + 1;
      }
      r := Some(constraintIds);
    }

    /**
     * `getEnumConstraint`: a pool index and an enum index, each checked; the
     * value's first position in the enum (`array_search` with strict
     * comparison), which must exist; then a counted loop of constraint bytes.
     */
    method GetEnumConstraint(enums: seq<CommandEnum>, enumValues: seq<string>, input: Cursor)
      returns (r: Option<CommandEnumConstraint>)
      requires input.Valid()
      modifies input
      ensures input.Valid() && Yields(DecodeConstraint(enumValues, enums, old(input.Rest())), r, input.Rest())
    {
      var valueIndex := input.GetLInt();
      if valueIndex.None? || !(0 <= valueIndex.value < |enumValues|) {
        return None;
      }
      var enumIndex := input.GetLInt();
      if enumIndex.None? || !(0 <= enumIndex.value < |enums|) {
        return None;
      }
      var e := enums[enumIndex.value];
      var valueOffset := IndexOf(e.values, enumValues[valueIndex.value]);
      if valueOffset.None? {
        return None;
      }
      var constraintIds := GetConstraintIds(input);
      if constraintIds.None? {
        return None;
      }
      r := Some(CommandEnumConstraint(e, valueOffset.value, constraintIds.value));
    }

    // The sections of `decodePayload`, each a counted loop.

    /** The enum-value pool and the postfix pool: a count, then that many strings. */
    method GetStringList(input: Cursor) returns (r: Option<seq<string>>)
      requires input.Valid()
      modifies input
      ensures input.Valid() && Yields(ReadList(StringReader(), old(input.Rest())), r, input.Rest())
    {
      var count := input.GetUnsignedVarInt();
      if count.None? {
        return None;
      }
      ghost var start := input.Rest();
      var values: seq<string> := [];
      var i := 0;
      while i < count.value
        invariant input.Valid() && 0 <= i <= count.value
        invariant Repeat(StringReader(), count.value, start, []) == Repeat(StringReader(), count.value - i, input.Rest(), values)
      {
        var value := input.GetString();
        if value.None? {
          return None;
        }
        values := values + [value.value];
        i := i + 1;
      }
      r := Some(values);
    }

    /** The enum table; the enums named in `HARDCODED_ENUM_NAMES` are also appended to `hardcodedEnums`, in table order. */
    method GetEnumTable(pool: seq<string>, input: Cursor) returns (r: Option<seq<CommandEnum>>)
      requires input.Valid()
      modifies `hardcodedEnums, input
      ensures input.Valid() && Yields(ReadList(EnumReader(pool), old(input.Rest())), r, input.Rest())
      ensures r.Some? ==> hardcodedEnums == old(hardcodedEnums) + HardcodedOf(r.value)
    {
      var count := input.GetUnsignedVarInt();
      if count.None? {
        return None;
      }
      ghost var start := input.Rest();
      var enums: seq<CommandEnum> := [];
      var hardcoded: seq<CommandEnum> := [];
      var i := 0;
      while i < count.value
        invariant input.Valid() && 0 <= i <= count.value
        invariant Repeat(EnumReader(pool), count.value, start, []) == Repeat(EnumReader(pool), count.value - i, input.Rest(), enums)
        invariant hardcoded == HardcodedOf(enums)
        invariant hardcodedEnums == old(hardcodedEnums)
      {
        var e := GetEnum(pool, input);
        if e.None? {
          return None;
        }
        HardcodedOfSnoc(enums, e.value);
        enums := enums + [e.value];
        if e.value.name in HARDCODED_ENUM_NAMES {
          hardcoded := hardcoded + [e.value];
        }
        i := i + 1;
      }
      hardcodedEnums := hardcodedEnums + hardcoded;
      r := Some(enums);
    }

    /** The commands, appended to `commandData`. */
    method GetCommands(enums: seq<CommandEnum>, postfixes: seq<string>, input: Cursor) returns (r: Option<seq<CommandData>>)
      requires input.Valid()
      modifies `commandData, input
      ensures input.Valid() && Yields(ReadList(CommandReader(enums, postfixes), old(input.Rest())), r, input.Rest())
      ensures r.Some? ==> commandData == old(commandData) + r.value
    {
      var count := input.GetUnsignedVarInt();
      if count.None? {
        return None;
      }
      ghost var start := input.Rest();
      var commands: seq<CommandData> := [];
      var i := 0;
      while i < count.value
        invariant input.Valid() && 0 <= i <= count.value
        invariant Repeat(CommandReader(enums, postfixes), count.value, start, []) ==
                  Repeat(CommandReader(enums, postfixes), count.value - i, input.Rest(), commands)
        invariant commandData == old(commandData)
      {
        var c := GetCommandData(enums, postfixes, input);
        if c.None? {
          return None;
        }
        commands := commands + [c.value];
        i := i + 1;
      }
      commandData := commandData + commands;
      r := Some(commands);
    }

    /** The soft enums, appended to `softEnums`. */
    method GetSoftEnums(input: Cursor) returns (r: Option<seq<CommandEnum>>)
      requires input.Valid()
      modifies `softEnums, input
      ensures input.Valid() && Yields(ReadList(SoftEnumReader(), old(input.Rest())), r, input.Rest())
      ensures r.Some? ==> softEnums == old(softEnums) + r.value
    {
      var count := input.GetUnsignedVarInt();
      if count.None? {
        return None;
      }
      ghost var start := input.Rest();
      var enums: seq<CommandEnum> := [];
      var i := 0;
      while i < count.value
        invariant input.Valid() && 0 <= i <= count.value
        invariant Repeat(SoftEnumReader(), count.value, start, []) == Repeat(SoftEnumReader(), count.value - i, input.Rest(), enums)
        invariant softEnums == old(softEnums)
      {
        var e := GetSoftEnum(input);
        if e.None? {
          return None;
        }
        enums := enums + [e.value];
        i := i + 1;
      }
      softEnums := softEnums + enums;
      r := Some(enums);
    }

    /** The enum constraints, appended to `enumConstraints`. */
    method GetConstraints(enums: seq<CommandEnum>, pool: seq<string>, input: Cursor) returns (r: Option<seq<CommandEnumConstraint>>)
      requires input.Valid()
      modifies `enumConstraints, input
      ensures input.Valid() && Yields(ReadList(ConstraintReader(pool, enums), old(input.Rest())), r, input.Rest())
      ensures r.Some? ==> enumConstraints == old(enumConstraints) + r.value
    {
      var count := input.GetUnsignedVarInt();
      if count.None? {
        return None;
      }
      ghost var start := input.Rest();
      var constraints: seq<CommandEnumConstraint> := [];
      var i := 0;
      while i < count.value
        invariant input.Valid() && 0 <= i <= count.value
        invariant Repeat(ConstraintReader(pool, enums), count.value, start, []) ==
                  Repeat(ConstraintReader(pool, enums), count.value - i, input.Rest(), constraints)
        invariant enumConstraints == old(enumConstraints)
      {
        var c := GetEnumConstraint(enums, pool, input);
        if c.None? {
          return None;
        }
        constraints := constraints + [c.value];
        i := i + 1;
      }
      enumConstraints := enumConstraints + constraints;
      r := Some(constraints);
    }

    /** The commands, the soft enums and the constraints, each appended to its field. */
    method GetRest(pool: seq<string>, postfixes: seq<string>, enums: seq<CommandEnum>, input: Cursor) returns (ok: bool)
      requires input.Valid()
      modifies `commandData, `softEnums, `enumConstraints, input
      ensures input.Valid()
      ensures ok <==> DecodeRest(pool, postfixes, enums, old(input.Rest())).Some?
      ensures ok ==> var d := DecodeRest(pool, postfixes, enums, old(input.Rest())).value;
                     && commandData == old(commandData) + d.item.commandData
                     && softEnums == old(softEnums) + d.item.softEnums
                     && enumConstraints == old(enumConstraints) + d.item.enumConstraints
                     && input.Rest() == d.rest
    {
      var commands := GetCommands(enums, postfixes, input);
      if commands.None? {
        return false;
      }
      var soft := GetSoftEnums(input);
      if soft.None? {
        return false;
      }
      var constraints := GetConstraints(enums, pool, input);
      ok := constraints.Some?;
    }

    /**
     * `decodePayload`: the six sections in order. The payload decodes exactly
     * when `Decode` accepts it, and then each field has the decoded records
     * appended to it and the cursor stands after the payload.
     */
    method DecodePayload(input: Cursor) returns (ok: bool)
      requires input.Valid()
      modifies this, input
      ensures input.Valid()
      ensures ok <==> Decode(old(input.Rest())).Some?
      ensures ok ==> var d := Decode(old(input.Rest())).value;
                     && commandData == old(commandData) + d.item.commandData
                     && hardcodedEnums == old(hardcodedEnums) + d.item.hardcodedEnums
                     && softEnums == old(softEnums) + d.item.softEnums
                     && enumConstraints == old(enumConstraints) + d.item.enumConstraints
                     && input.Rest() == d.rest
    {
      var enumValues := GetStringList(input);
      ghost var t2 := input.Rest();
      if enumValues.None? {
        DecodeStops(old(input.Rest()), t2, t2, []);
        return false;
      }
      var postfixes := GetStringList(input);
      ghost var t3 := input.Rest();
      if postfixes.None? {
        DecodeStops(old(input.Rest()), t2, t3, enumValues.value);
        return false;
      }
      var enums := GetEnumTable(enumValues.value, input);
      if enums.None? {
        DecodeStops(old(input.Rest()), t2, t3, enumValues.value);
        return false;
      }
      DecodeTables(old(input.Rest()), t2, t3, input.Rest(), enumValues.value, postfixes.value, enums.value);
      ok := GetRest(enumValues.value, postfixes.value, enums.value, input);
    }

    // Encoding: the pass that builds the tables.

    /** `$addEnumFn`: register the enum's name if it is new, then each of its values in order. */
    method AddEnumFn(t: Tables, e: CommandEnum) returns (r: Tables)
      ensures r == AddEnum(t, e)
    {
      r := t;
      if e.name !in r.enumIndexes.index {
        r := r.(enumIndexes := r.enumIndexes.Add(e.name), enums := r.enums + [e]);
      }
      ghost var named := r;
      var valueIndexes := r.enumValueIndexes;
      var i := 0;
      while i < |e.values|
        invariant 0 <= i <= |e.values|
        invariant valueIndexes.AddAll(e.values[i..]) == named.enumValueIndexes.AddAll(e.values)
      {
        assert e.values[i..][1..] == e.values[i + 1..];
        valueIndexes := valueIndexes.Add(e.values[i]);
        i := i + 1;
      }
      r := r.(enumValueIndexes := valueIndexes);
    }

    /** The parameters of one overload: each one's enum, then its postfix. */
    method AddParametersFn(t: Tables, ps: seq<CommandParameter>) returns (r: Tables)
      ensures r == AddParameters(t, ps)
    {
      r := t;
      var i := 0;
      while i < |ps|
        invariant 0 <= i <= |ps|
        invariant AddParameters(r, ps[i..]) == AddParameters(t, ps)
      {
        assert ps[i..][1..] == ps[i + 1..];
        var parameter := ps[i];
        if parameter.enum.Some? {
          r := AddEnumFn(r, parameter.enum.value);
        }
        if parameter.postfix.Some? {
          r := r.(postfixIndexes := r.postfixIndexes.Add(parameter.postfix.value));
        }
        i := i + 1;
      }
    }

    /** One command of the pass: its alias enum, then its overloads in order. */
    method AddCommandFn(t: Tables, c: CommandData) returns (r: Tables)
      ensures r == AddCommand(t, c)
    {
      r := t;
      if c.aliases.Some? {
        r := AddEnumFn(r, c.aliases.value);
      }
      ghost var aliased := r;
      var i := 0;
      while i < |c.overloads|
        invariant 0 <= i <= |c.overloads|
        invariant AddOverloads(r, c.overloads[i..]) == AddOverloads(aliased, c.overloads)
      {
        assert c.overloads[i..][1..] == c.overloads[i + 1..];
        r := AddParametersFn(r, c.overloads[i]);
        i := i + 1;
      }
    }

    /** The pass of `encodePayload`: the hardcoded enums, then every command. */
    method BuildTables() returns (t: Tables)
      ensures t == Build(Model())
    {
      t := EmptyTables;
      var i := 0;
      while i < |hardcodedEnums|
        invariant 0 <= i <= |hardcodedEnums|
        invariant AddEnums(t, hardcodedEnums[i..]) == AddEnums(EmptyTables, hardcodedEnums)
      {
        assert hardcodedEnums[i..][1..] == hardcodedEnums[i + 1..];
        t := AddEnumFn(t, hardcodedEnums[i]);
        i := i + 1;
      }
      ghost var hardcoded := t;
      i := 0;
      while i < |commandData|
        invariant 0 <= i <= |commandData|
        invariant AddCommands(t, commandData[i..]) == AddCommands(hardcoded, commandData)
      {
        assert commandData[i..][1..] == commandData[i + 1..];
        t := AddCommandFn(t, commandData[i]);
        i := i + 1;
      }
    }

    // Encoding: the writes.

    /** `putEnumValueIndex`: the width follows the pool size. */
    method PutEnumValueIndex(index: int, valueCount: nat, out: Writer)
      modifies out
      ensures out.tokens == old(out.tokens) + [EncodeEnumValueIndex(index, valueCount)]
    {
      if valueCount < 0x100 {
        out.PutByte(index);
      } else if valueCount < 0x1_0000 {
        out.PutLShort(index);
      } else {
        out.PutLInt(index);
      }
    }

    /** `putEnum`: the name, the count, then each value's pool index; a value not pooled throws. */
    method PutEnum(e: CommandEnum, enumValueMap: IndexMap, out: Writer) returns (ok: bool)
      modifies out
      ensures ok <==> EncodeEnum(e, enumValueMap).Some?
      ensures ok ==> out.tokens == old(out.tokens) + EncodeEnum(e, enumValueMap).value
    {
      out.PutString(e.name);
      out.PutUnsignedVarInt(|e.values|);
      ghost var base := out.tokens;
      ghost var written: seq<Token> := [];
      var listSize := enumValueMap.Count();
      var i := 0;
      while i < |e.values|
        invariant 0 <= i <= |e.values|
        invariant PutAll(e.values[..i], EnumValueWriter(enumValueMap)) == Some(written)
        invariant out.tokens == base + written
      {
        var value := e.values[i];
        if value !in enumValueMap.index {
          PutListFails(e.values, i, EnumValueWriter(enumValueMap));
          return false;
        }
        ghost var before := out.tokens;
        PutEnumValueIndex(enumValueMap.index[value], listSize, out);
        written := WriteStep(e.values, i, EnumValueWriter(enumValueMap), base, written, before, out.tokens);
        i := i + 1;
      }
      PutListDone(e.values, EnumValueWriter(enumValueMap), written);
      ok := true;
    }

    /** One parameter of `putCommandData`: name, type word, optional flag, flags; a postfix not pooled throws. */
    method PutParameter(parameter: CommandParameter, enumIndexes: IndexMap, postfixIndexes: IndexMap, out: Writer)
      returns (ok: bool)
      modifies out
      ensures ok <==> EncodeParameter(parameter, enumIndexes, postfixIndexes).Some?
      ensures ok ==> out.tokens == old(out.tokens) + EncodeParameter(parameter, enumIndexes, postfixIndexes).value
    {
      out.PutString(parameter.paramName);
      var paramType;
      if parameter.enum.Some? {
        var name := parameter.enum.value.name;
        paramType := EnumTypeWord(if name in enumIndexes.index then enumIndexes.index[name] else -1);
      } else if parameter.postfix.Some? {
        if parameter.postfix.value !in postfixIndexes.index {
          return false;
        }
        paramType := PostfixTypeWord(postfixIndexes.index[parameter.postfix.value]);
      } else {
        paramType := parameter.paramType;
      }
      out.PutLInt(paramType);
      out.PutBool(parameter.isOptional);
      out.PutByte(parameter.flags);
      ok := true;
    }

    /** One overload of `putCommandData`: the count, then each parameter. */
    method PutOverload(overload: seq<CommandParameter>, enumIndexes: IndexMap, postfixIndexes: IndexMap, out: Writer)
      returns (ok: bool)
      modifies out
      ensures ok <==> OverloadWriter(enumIndexes, postfixIndexes)(overload).Some?
      ensures ok ==> out.tokens == old(out.tokens) + OverloadWriter(enumIndexes, postfixIndexes)(overload).value
    {
      out.PutUnsignedVarInt(|overload|);
      ghost var base := out.tokens;
      ghost var written: seq<Token> := [];
      var i := 0;
      while i < |overload|
        invariant 0 <= i <= |overload|
        invariant PutAll(overload[..i], ParameterWriter(enumIndexes, postfixIndexes)) == Some(written)
        invariant out.tokens == base + written
      {
        ghost var before := out.tokens;
        var written1 := PutParameter(overload[i], enumIndexes, postfixIndexes, out);
        if !written1 {
          PutListFails(overload, i, ParameterWriter(enumIndexes, postfixIndexes));
          return false;
        }
        written := WriteStep(overload, i, ParameterWriter(enumIndexes, postfixIndexes), base, written, before, out.tokens);
        i := i + 1;
      }
      PutListDone(overload, ParameterWriter(enumIndexes, postfixIndexes), written);
      ok := true;
    }

    /** The overloads of `putCommandData`: the count, then each overload. */
    method PutOverloads(overloads: seq<seq<CommandParameter>>, enumIndexes: IndexMap, postfixIndexes: IndexMap, out: Writer)
      returns (ok: bool)
      modifies out
      ensures ok <==> PutList(overloads, OverloadWriter(enumIndexes, postfixIndexes)).Some?
      ensures ok ==> out.tokens == old(out.tokens) + PutList(overloads, OverloadWriter(enumIndexes, postfixIndexes)).value
    {
      out.PutUnsignedVarInt(|overloads|);
      ghost var base := out.tokens;
      ghost var written: seq<Token> := [];
      var i := 0;
      while i < |overloads|
        invariant 0 <= i <= |overloads|
        invariant PutAll(overloads[..i], OverloadWriter(enumIndexes, postfixIndexes)) == Some(written)
        invariant out.tokens == base + written
      {
        ghost var before := out.tokens;
        var written1 := PutOverload(overloads[i], enumIndexes, postfixIndexes, out);
        if !written1 {
          PutListFails(overloads, i, OverloadWriter(enumIndexes, postfixIndexes));
          return false;
        }
        written := WriteStep(overloads, i, OverloadWriter(enumIndexes, postfixIndexes), base, written, before, out.tokens);
        i := i + 1;
      }
      PutListDone(overloads, OverloadWriter(enumIndexes, postfixIndexes), written);
      ok := true;
    }

    /** The fixed fields of `putCommandData`: name, description, flags, permission and the alias index (-1 for none). */
    method PutCommandHeader(data: CommandData, enumIndexes: IndexMap, out: Writer)
      modifies out
      ensures out.tokens == old(out.tokens) + [Str(data.name), Str(data.description), ByteToken(data.flags),
                                               ByteToken(data.permission), LIntToken(AliasIndex(data, enumIndexes))]
    {
      out.PutString(data.name);
      out.PutString(data.description);
      out.PutByte(data.flags);
      out.PutByte(data.permission);
      var aliasIndex: int := -1;
      if data.aliases.Some? && data.aliases.value.name in enumIndexes.index {
        aliasIndex := enumIndexes.index[data.aliases.value.name];
      }
      out.PutLInt(aliasIndex);
    }

    /** `putCommandData`: the header, then the overloads. */
    method PutCommandData(data: CommandData, enumIndexes: IndexMap, postfixIndexes: IndexMap, out: Writer)
      returns (ok: bool)
      modifies out
      ensures ok <==> CommandWriter(enumIndexes, postfixIndexes)(data).Some?
      ensures ok ==> out.tokens == old(out.tokens) + CommandWriter(enumIndexes, postfixIndexes)(data).value
    {
      PutCommandHeader(data, enumIndexes, out);
      ghost var header := out.tokens[|old(out.tokens)|..];
      assert out.tokens == old(out.tokens) + header;
      ok := PutOverloads(data.overloads, enumIndexes, postfixIndexes, out);
      EncodeCommandParts(data, enumIndexes, postfixIndexes);
      if ok {
        ghost var body := PutList(data.overloads, OverloadWriter(enumIndexes, postfixIndexes)).value;
        assert out.tokens == old(out.tokens) + (header + body);
      }
    }

    /** A count, then each string: the two pools and the values of a soft enum. */
    method PutStringList(values: seq<string>, out: Writer)
      modifies out
      ensures PutList(values, StringWriter()).Some?
      ensures out.tokens == old(out.tokens) + PutList(values, StringWriter()).value
    {
      out.PutUnsignedVarInt(|values|);
      ghost var base := out.tokens;
      ghost var written: seq<Token> := [];
      var i := 0;
      while i < |values|
        invariant 0 <= i <= |values|
        invariant PutAll(values[..i], StringWriter()) == Some(written)
        invariant out.tokens == base + written
      {
        ghost var before := out.tokens;
        out.PutString(values[i]);
        written := WriteStep(values, i, StringWriter(), base, written, before, out.tokens);
        i := i + 1;
      }
      PutListDone(values, StringWriter(), written);
    }

    /** `putSoftEnum`: the name, then the values as plain strings. */
    method PutSoftEnum(e: CommandEnum, out: Writer)
      modifies out
      ensures EncodeSoftEnum(e).Some?
      ensures out.tokens == old(out.tokens) + EncodeSoftEnum(e).value
    {
      out.PutString(e.name);
      PutStringList(e.values, out);
    }

    /**
     * `putEnumConstraint`: the pool index of the affected value and the table
     * index of the enum's name, then the constraint ids as bytes. A lookup
     * that misses has nothing to write.
     */
    method PutEnumConstraint(constraint: CommandEnumConstraint, enumIndexes: IndexMap, enumValueIndexes: IndexMap, out: Writer)
      returns (ok: bool)
      modifies out
      ensures ok <==> EncodeConstraint(constraint, enumIndexes, enumValueIndexes).Some?
      ensures ok ==> out.tokens == old(out.tokens) + EncodeConstraint(constraint, enumIndexes, enumValueIndexes).value
    {
      var affected := constraint.AffectedValue();
      if affected.None? || affected.value !in enumValueIndexes.index || constraint.enum.name !in enumIndexes.index {
        return false;
      }
      out.PutLInt(enumValueIndexes.index[affected.value]);
      out.PutLInt(enumIndexes.index[constraint.enum.name]);
      out.PutUnsignedVarInt(|constraint.constraints|);
      ghost var base := out.tokens;
      ghost var written: seq<Token> := [];
      var i := 0;
      while i < |constraint.constraints|
        invariant 0 <= i <= |constraint.constraints|
        invariant PutAll(constraint.constraints[..i], ByteWriter()) == Some(written)
        invariant out.tokens == base + written
      {
        ghost var before := out.tokens;
        out.PutByte(constraint.constraints[i]);
        written := WriteStep(constraint.constraints, i, ByteWriter(), base, written, before, out.tokens);
        i := i + 1;
      }
      PutListDone(constraint.constraints, ByteWriter(), written);
      ok := true;
    }

    /** The enum table of `encodePayload`: the count, then `putEnum` for each table enum. */
    method PutEnums(enums: seq<CommandEnum>, enumValueIndexes: IndexMap, out: Writer) returns (ok: bool)
      modifies out
      ensures ok <==> PutList(enums, EnumWriter(enumValueIndexes)).Some?
      ensures ok ==> out.tokens == old(out.tokens) + PutList(enums, EnumWriter(enumValueIndexes)).value
    {
      out.PutUnsignedVarInt(|enums|);
      ghost var base := out.tokens;
      ghost var written: seq<Token> := [];
      var i := 0;
      while i < |enums|
        invariant 0 <= i <= |enums|
        invariant PutAll(enums[..i], EnumWriter(enumValueIndexes)) == Some(written)
        invariant out.tokens == base + written
      {
        ghost var before := out.tokens;
        var written1 := PutEnum(enums[i], enumValueIndexes, out);
        if !written1 {
          PutListFails(enums, i, EnumWriter(enumValueIndexes));
          return false;
        }
        written := WriteStep(enums, i, EnumWriter(enumValueIndexes), base, written, before, out.tokens);
        i := i + 1;
      }
      PutListDone(enums, EnumWriter(enumValueIndexes), written);
      ok := true;
    }

    /** The commands of `encodePayload`: the count, then `putCommandData` for each command. */
    method PutCommands(commands: seq<CommandData>, enumIndexes: IndexMap, postfixIndexes: IndexMap, out: Writer) returns (ok: bool)
      modifies out
      ensures ok <==> PutList(commands, CommandWriter(enumIndexes, postfixIndexes)).Some?
      ensures ok ==> out.tokens == old(out.tokens) + PutList(commands, CommandWriter(enumIndexes, postfixIndexes)).value
    {
      out.PutUnsignedVarInt(|commands|);
      ghost var base := out.tokens;
      ghost var written: seq<Token> := [];
      var i := 0;
      while i < |commands|
        invariant 0 <= i <= |commands|
        invariant PutAll(commands[..i], CommandWriter(enumIndexes, postfixIndexes)) == Some(written)
        invariant out.tokens == base + written
      {
        ghost var before := out.tokens;
        var written1 := PutCommandData(commands[i], enumIndexes, postfixIndexes, out);
        if !written1 {
          PutListFails(commands, i, CommandWriter(enumIndexes, postfixIndexes));
          return false;
        }
        written := WriteStep(commands, i, CommandWriter(enumIndexes, postfixIndexes), base, written, before, out.tokens);
        i := i + 1;
      }
      PutListDone(commands, CommandWriter(enumIndexes, postfixIndexes), written);
      ok := true;
    }

    /** The constraints of `encodePayload`: the count, then `putEnumConstraint` for each constraint. */
    method PutConstraints(constraints: seq<CommandEnumConstraint>, enumIndexes: IndexMap, enumValueIndexes: IndexMap, out: Writer) returns (ok: bool)
      modifies out
      ensures ok <==> PutList(constraints, ConstraintWriter(enumIndexes, enumValueIndexes)).Some?
      ensures ok ==> out.tokens == old(out.tokens) + PutList(constraints, ConstraintWriter(enumIndexes, enumValueIndexes)).value
    {
      out.PutUnsignedVarInt(|constraints|);
      ghost var base := out.tokens;
      ghost var written: seq<Token> := [];
      var i := 0;
      while i < |constraints|
        invariant 0 <= i <= |constraints|
        invariant PutAll(constraints[..i], ConstraintWriter(enumIndexes, enumValueIndexes)) == Some(written)
        invariant out.tokens == base + written
      {
        ghost var before := out.tokens;
        var written1 := PutEnumConstraint(constraints[i], enumIndexes, enumValueIndexes, out);
        if !written1 {
          PutListFails(constraints, i, ConstraintWriter(enumIndexes, enumValueIndexes));
          return false;
        }
        written := WriteStep(constraints, i, ConstraintWriter(enumIndexes, enumValueIndexes), base, written, before, out.tokens);
        i := i + 1;
      }
      PutListDone(constraints, ConstraintWriter(enumIndexes, enumValueIndexes), written);
      ok := true;
    }

    /** The soft enums of `encodePayload`: the count, then `putSoftEnum` for each; this never fails. */
    method PutSoftEnums(enums: seq<CommandEnum>, out: Writer)
      modifies out
      ensures PutList(enums, SoftEnumWriter()).Some?
      ensures out.tokens == old(out.tokens) + PutList(enums, SoftEnumWriter()).value
    {
      out.PutUnsignedVarInt(|enums|);
      ghost var base := out.tokens;
      ghost var written: seq<Token> := [];
      var i := 0;
      while i < |enums|
        invariant 0 <= i <= |enums|
        invariant PutAll(enums[..i], SoftEnumWriter()) == Some(written)
        invariant out.tokens == base + written
      {
        ghost var before := out.tokens;
        PutSoftEnum(enums[i], out);
        written := WriteStep(enums, i, SoftEnumWriter(), base, written, before, out.tokens);
        i := i + 1;
      }
      PutListDone(enums, SoftEnumWriter(), written);
    }

    /**
     * `encodePayload`: the pass, then the six sections in the order the
     * decoder reads them. It writes exactly when `Encode` succeeds, and then
     * appends exactly what `Encode` gives.
     */
    method EncodePayload(out: Writer) returns (ok: bool)
      modifies out
      ensures ok <==> Encode(Model()).Some?
      ensures ok ==> out.tokens == old(out.tokens) + Encode(Model()).value
    {
      var t := BuildTables();
      PutStringList(t.enumValueIndexes.keys, out);
      PutStringList(t.postfixIndexes.keys, out);
      ok := PutEnums(t.enums, t.enumValueIndexes, out);
      if ok {
        ok := PutCommands(commandData, t.enumIndexes, t.postfixIndexes, out);
      }
      if ok {
        PutSoftEnums(softEnums, out);
        ok := PutConstraints(enumConstraints, t.enumIndexes, t.enumValueIndexes, out);
      }
      if ok {
        ghost var s1 := PutList(t.enumValueIndexes.keys, StringWriter()).value;
        ghost var s2 := PutList(t.postfixIndexes.keys, StringWriter()).value;
        ghost var s3 := PutList(t.enums, EnumWriter(t.enumValueIndexes)).value;
        ghost var s4 := PutList(commandData, CommandWriter(t.enumIndexes, t.postfixIndexes)).value;
        ghost var s5 := PutList(softEnums, SoftEnumWriter()).value;
        ghost var s6 := PutList(enumConstraints, ConstraintWriter(t.enumIndexes, t.enumValueIndexes)).value;
        EncodeSections(Model(), s1, s2, s3, s4, s5, s6);
        AppendSix(old(out.tokens), s1, s2, s3, s4, s5, s6);
      } else {
        EncodeFails(Model());
      }
    }
  }
}
