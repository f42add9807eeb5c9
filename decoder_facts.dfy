/**
 * What the decoder accepts and what it makes of it, record by record: the
 * checks `getEnum`, `getCommandData` and `getEnumConstraint` perform and the
 * values they produce.
 */
module DecoderFacts {
  import opened Wrappers
  import opened Wire
  import opened Commands
  import opened ParamType
  import opened Decoder

  /** Every record a counted loop reads has property `P` when every single read gives one that has it. */
  lemma {:induction false} RepeatKeeps<T>(read: seq<Token> -> Parse<T>, P: T -> bool, n: nat, ts: seq<Token>, acc: seq<T>)
    requires forall x :: x in acc ==> P(x)
    requires forall ts' :: read(ts').Some? ==> P(read(ts').value.item)
    ensures Repeat(read, n, ts, acc).Some? ==> forall x :: x in Repeat(read, n, ts, acc).value.item ==> P(x)
    decreases n
  {
    if n > 0 && read(ts).Some? {
      var p := read(ts).value;
      assert forall x :: x in acc + [p.item] ==> x in acc || x == p.item;
      RepeatKeeps(read, P, n - 1, p.rest, acc + [p.item]);
    }
  }

  /**
   * One value of `getEnum`: the index is read with the pool's width and must
   * name a pool entry, which is then the value.
   */
  lemma ReadEnumValueChecks(pool: seq<string>, ts: seq<Token>)
    ensures ReadEnumValue(pool, ts).Some? <==>
            ReadEnumValueIndex(|pool|, ts).Some? && 0 <= ReadEnumValueIndex(|pool|, ts).value.item < |pool|
    ensures ReadEnumValue(pool, ts).Some? ==>
            ReadEnumValue(pool, ts).value.item == pool[ReadEnumValueIndex(|pool|, ts).value.item] &&
            ReadEnumValue(pool, ts).value.rest == ts[1..]
  {
  }

  /** The index one past the pool, written with the pool's own width, aborts `getEnum`. */
  lemma IndexAtPoolSizeFails(pool: seq<string>, rest: seq<Token>)
    requires |pool| < 0x8000_0000
    ensures ReadEnumValue(pool, [if |pool| < 0x100 then Byte(|pool|)
                                 else if |pool| < 0x1_0000 then LShort(|pool|)
                                 else LInt(|pool|)] + rest).None?
  {
  }

  /** The values of a decoded enum are all entries of the pool. */
  lemma EnumValuesFromPool(pool: seq<string>, ts: seq<Token>)
    ensures DecodeEnum(pool, ts).Some? ==> forall v :: v in DecodeEnum(pool, ts).value.item.values ==> v in pool
  {
    var name := ReadString(ts);
    if name.Some? {
      var count := ReadUnsignedVarInt(name.value.rest);
      if count.Some? {
        RepeatKeeps(EnumValueReader(pool), v => v in pool, count.value.item, count.value.rest, []);
      }
    }
  }

  /**
   * The alias index never makes `getCommandData` fail: whatever 32-bit word it
   * holds, the command decodes exactly when its overloads do, and the word
   * selects an alias enum only when it is a position of the table.
   */
  lemma AliasIsLenient(enums: seq<CommandEnum>, postfixes: seq<string>, name: string, description: string,
                       flags: uint8, permission: uint8, word: uint32, tail: seq<Token>)
    ensures var r := DecodeCommand(enums, postfixes, [Str(name), Str(description), Byte(flags), Byte(permission), LInt(word)] + tail);
            var o := ReadList(OverloadReader(enums, postfixes), tail);
            (r.Some? <==> o.Some?) &&
            (r.Some? ==> r.value == Parsed(CommandData(name, description, flags, permission,
                                                       AliasOf(enums, Signed(word)), o.value.item), o.value.rest))
    ensures AliasOf(enums, Signed(word)).None? <==> !(0 <= Signed(word) < |enums|)
  {
    var t5 := [LInt(word)] + tail;
    var t4 := [Byte(permission)] + t5;
    var t3 := [Byte(flags)] + t4;
    var t2 := [Str(description)] + t3;
    var ts := [Str(name)] + t2;
    assert [Str(name), Str(description), Byte(flags), Byte(permission), LInt(word)] + tail == ts;
    assert ReadString(ts) == Some(Parsed(name, t2)) by { assert ts[1..] == t2; }
    assert ReadString(t2) == Some(Parsed(description, t3)) by { assert t2[1..] == t3; }
    assert ReadByte(t3) == Some(Parsed(flags, t4)) by { assert t3[1..] == t4; }
    assert ReadByte(t4) == Some(Parsed(permission, t5)) by { assert t4[1..] == t5; }
    assert ReadLInt(t5) == Some(Parsed(Signed(word), tail)) by { assert t5[1..] == tail; }
  }

  /**
   * The type checks of `getCommandData`, in order: an ENUM word must index the
   * enum table, otherwise a POSTFIX word must index the postfix pool,
   * otherwise a word without VALID fails; any other word is kept as it is.
   */
  lemma ParameterTypeChecks(enums: seq<CommandEnum>, postfixes: seq<string>, p: CommandParameter)
    requires p.enum.None? && p.postfix.None?
    ensures HasFlag(p.paramType, ARG_FLAG_ENUM) ==>
            ResolveParameterType(enums, postfixes, p) ==
            (if Low16(p.paramType) < |enums| then Some(p.(enum := Some(enums[Low16(p.paramType)]))) else None)
    ensures !HasFlag(p.paramType, ARG_FLAG_ENUM) && HasFlag(p.paramType, ARG_FLAG_POSTFIX) ==>
            ResolveParameterType(enums, postfixes, p) ==
            (if Low16(p.paramType) < |postfixes| then Some(p.(postfix := Some(postfixes[Low16(p.paramType)]))) else None)
    ensures !HasFlag(p.paramType, ARG_FLAG_ENUM) && !HasFlag(p.paramType, ARG_FLAG_POSTFIX) ==>
            ResolveParameterType(enums, postfixes, p) ==
            (if HasFlag(p.paramType, ARG_FLAG_VALID) then Some(p) else None)
  {
  }

  /**
   * `getEnumConstraint` succeeds exactly when the value index names a pool
   * entry, the enum index names a table enum holding that value, and the ids
   * read; the offset is then the first position of the value in the enum's
   * own values.
   */
  lemma ConstraintChecks(pool: seq<string>, enums: seq<CommandEnum>, valueWord: uint32, enumWord: uint32, tail: seq<Token>)
    ensures var r := DecodeConstraint(pool, enums, [LInt(valueWord), LInt(enumWord)] + tail);
            var vi, ei := Signed(valueWord), Signed(enumWord);
            (r.Some? <==> 0 <= vi < |pool| && 0 <= ei < |enums| && pool[vi] in enums[ei].values &&
                          ReadList(ByteReader(), tail).Some?) &&
            (r.Some? ==>
               r.value.item.enum == enums[ei] &&
               0 <= r.value.item.valueOffset < |enums[ei].values| &&
               enums[ei].values[r.value.item.valueOffset] == pool[vi] &&
               (forall j :: 0 <= j < r.value.item.valueOffset ==> enums[ei].values[j] != pool[vi]) &&
               r.value.item.constraints == ReadList(ByteReader(), tail).value.item &&
               r.value.rest == ReadList(ByteReader(), tail).value.rest)
  {
    var ts := [LInt(valueWord), LInt(enumWord)] + tail;
    var t2 := [LInt(enumWord)] + tail;
    assert ts == [LInt(valueWord)] + t2;
    assert ReadLInt(ts) == Some(Parsed(Signed(valueWord), t2)) by { assert ts[1..] == t2; }
    assert ReadLInt(t2) == Some(Parsed(Signed(enumWord), tail)) by { assert t2[1..] == tail; }
  }

  /**
   * The offset is taken in the enum's own value list, not in the pool: with the
   * pool ["hard", "easy"], value index 0 ("hard") in the enum "mode" with
   * values ["easy", "hard"] gives offset 1.
   */
  lemma ConstraintOffsetExample()
    ensures DecodeConstraint(["hard", "easy"], [CommandEnum("mode", ["easy", "hard"])], [LInt(0), LInt(0), VarInt(0)])
            == Some(Parsed(CommandEnumConstraint(CommandEnum("mode", ["easy", "hard"]), 1, []), []))
  {
    var e := CommandEnum("mode", ["easy", "hard"]);
    assert e.values[1..] == ["hard"];
    assert IndexOf(e.values, "hard") == Some(1);
    assert ([LInt(0), LInt(0), VarInt(0)])[1..] == [LInt(0), VarInt(0)];
    assert ([LInt(0), VarInt(0)])[1..] == [VarInt(0)];
    assert ([VarInt(0)])[1..] == [];
  }
}
