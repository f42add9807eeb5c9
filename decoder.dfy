/**
 * What decoding the version-361 AvailableCommands payload computes, as
 * functions over the token stream. Each function reads one record and gives
 * the value and the tokens after it, or `None` where the packet code throws.
 *
 * The payload holds, in this order: the enum-value pool, the postfix pool,
 * the enum table, the commands, the soft enums and the enum constraints,
 * each as a count followed by that many records.
 */
module Decoder {
  import opened Wrappers
  import opened Wire
  import opened Commands
  import opened ParamType

  /** Bytes of one enum-value index, chosen by the size of the pool it points into. */
  function IndexWidth(valueCount: nat): nat {
    if valueCount < 0x100 then 1 else if valueCount < 0x1_0000 then 2 else 4
  }

  /** `getEnumValueIndex`: a byte, a little-endian short or a little-endian int. */
  function ReadEnumValueIndex(valueCount: nat, ts: seq<Token>): (r: Parse<int>)
    ensures r.Some? ==> |ts| > 0 && IsFixedWidth(ts[0]) && ByteWidth(ts[0]) == IndexWidth(valueCount)
    ensures r.Some? ==> r.value.rest == ts[1..]
    ensures r.Some? ==> r.value.item == match ts[0]
                                        case Byte(b) => b
                                        case LShort(v) => v
                                        case LInt(w) => Signed(w)
                                        case _ => -1
  {
    if valueCount < 0x100 then ReadByte(ts)
    else if valueCount < 0x1_0000 then ReadLShort(ts)
    else ReadLInt(ts)
  }

  /** One step of `getEnum`'s loop: an index, looked up in the pool; an index outside it aborts. */
  function ReadEnumValue(pool: seq<string>, ts: seq<Token>): Parse<string> {
    var index :- ReadEnumValueIndex(|pool|, ts);
    if 0 <= index.item < |pool| then Some(Parsed(pool[index.item], index.rest)) else None
  }

  function EnumValueReader(pool: seq<string>): seq<Token> -> Parse<string> {
    ts => ReadEnumValue(pool, ts)
  }

  /** `getEnum`: a name, then a count of pool indices. */
  function DecodeEnum(pool: seq<string>, ts: seq<Token>): Parse<CommandEnum> {
    var name :- ReadString(ts);
    var values :- ReadList(EnumValueReader(pool), name.rest);
    Some(Parsed(CommandEnum(name.item, values.item), values.rest))
  }

  function EnumReader(pool: seq<string>): seq<Token> -> Parse<CommandEnum> {
    ts => DecodeEnum(pool, ts)
  }

  /** The enums of a table that `decodePayload` also appends to `hardcodedEnums`, in table order. */
  function HardcodedOf(enums: seq<CommandEnum>): (r: seq<CommandEnum>)
    ensures forall e :: e in r <==> e in enums && IsHardcoded(e)
    ensures |r| <= |enums|
  {
    if enums == [] then []
    else
      var last := enums[|enums| - 1];
      HardcodedOf(enums[..|enums| - 1]) + (if IsHardcoded(last) then [last] else [])
  }

  /** Reading one more enum appends it to the hardcoded list exactly when its name is hardcoded. */
  lemma HardcodedOfSnoc(enums: seq<CommandEnum>, e: CommandEnum)
    ensures HardcodedOf(enums + [e]) == HardcodedOf(enums) + (if IsHardcoded(e) then [e] else [])
  {
    assert (enums + [e])[..|enums|] == enums;
  }

  /** `$enums[$index] ?? null` for the alias index: anything outside the table means no aliases. */
  function AliasOf(enums: seq<CommandEnum>, index: int): Option<CommandEnum> {
    if 0 <= index < |enums| then Some(enums[index]) else None
  }

  /**
   * The type checks of `getCommandData`, in the source's order: an ENUM word
   * must index the enum table, then a POSTFIX word must index the postfix pool,
   * then a word without VALID is refused; anything else is kept as a primitive.
   */
  function ResolveParameterType(enums: seq<CommandEnum>, postfixes: seq<string>, p: CommandParameter): Option<CommandParameter> {
    match Classify(p.paramType)
    case EnumIndex(i) => if i < |enums| then Some(p.(enum := Some(enums[i]))) else None
    case PostfixIndex(i) => if i < |postfixes| then Some(p.(postfix := Some(postfixes[i]))) else None
    case Invalid => None
    case Primitive => Some(p)
  }

  /** One parameter of `getCommandData`: name, type word, optional flag, flags; then the type checks. */
  function DecodeParameter(enums: seq<CommandEnum>, postfixes: seq<string>, ts: seq<Token>): Parse<CommandParameter> {
    var name :- ReadString(ts);
    var paramType :- ReadLInt(name.rest);
    var isOptional :- ReadBool(paramType.rest);
    var flags :- ReadByte(isOptional.rest);
    var p :- ResolveParameterType(enums, postfixes,
               CommandParameter(name.item, paramType.item, isOptional.item, flags.item, None, None));
    Some(Parsed(p, flags.rest))
  }

  function ParameterReader(enums: seq<CommandEnum>, postfixes: seq<string>): seq<Token> -> Parse<CommandParameter> {
    ts => DecodeParameter(enums, postfixes, ts)
  }

  /** One overload: a count of parameters. */
  function OverloadReader(enums: seq<CommandEnum>, postfixes: seq<string>): seq<Token> -> Parse<seq<CommandParameter>> {
    ts => ReadList(ParameterReader(enums, postfixes), ts)
  }

  /** `getCommandData`: the header, a signed alias index, then the overloads. */
  function DecodeCommand(enums: seq<CommandEnum>, postfixes: seq<string>, ts: seq<Token>): Parse<CommandData> {
    var name :- ReadString(ts);
    var description :- ReadString(name.rest);
    var flags :- ReadByte(description.rest);
    var permission :- ReadByte(flags.rest);
    var aliasIndex :- ReadLInt(permission.rest);
    var overloads :- ReadList(OverloadReader(enums, postfixes), aliasIndex.rest);
    Some(Parsed(CommandData(name.item, description.item, flags.item, permission.item,
                            AliasOf(enums, aliasIndex.item), overloads.item), overloads.rest))
  }

  function CommandReader(enums: seq<CommandEnum>, postfixes: seq<string>): seq<Token> -> Parse<CommandData> {
    ts => DecodeCommand(enums, postfixes, ts)
  }

  /** `getSoftEnum`: a name and a count of raw strings, with no pooling. */
  function DecodeSoftEnum(ts: seq<Token>): Parse<CommandEnum> {
    var name :- ReadString(ts);
    var values :- ReadList(StringReader(), name.rest);
    Some(Parsed(CommandEnum(name.item, values.item), values.rest))
  }

  function SoftEnumReader(): seq<Token> -> Parse<CommandEnum> {
    ts => DecodeSoftEnum(ts)
  }

  /** `array_search($v, $values, true)`: the first position of `v`, or `None` when it is absent. */
  function IndexOf(values: seq<string>, v: string): (r: Option<nat>)
    ensures r.Some? ==> r.value < |values| && values[r.value] == v
    ensures r.Some? ==> forall j :: 0 <= j < r.value ==> values[j] != v
    ensures r.None? <==> v !in values
  {
    if values == [] then None
    else if values[0] == v then Some(0)
    else match IndexOf(values[1..], v)
      case None => None
      case Some(k) => Some(k + 1)
  }

  /** `getEnumConstraint`: a pool index, an enum index, then a count of constraint-id bytes. */
  function DecodeConstraint(pool: seq<string>, enums: seq<CommandEnum>, ts: seq<Token>): Parse<CommandEnumConstraint> {
    var valueIndex :- ReadLInt(ts);
    if !(0 <= valueIndex.item < |pool|) then None
    else
      var enumIndex :- ReadLInt(valueIndex.rest);
      if !(0 <= enumIndex.item < |enums|) then None
      else
        var e := enums[enumIndex.item];
        var offset :- IndexOf(e.values, pool[valueIndex.item]);
        var ids :- ReadList(ByteReader(), enumIndex.rest);
        Some(Parsed(CommandEnumConstraint(e, offset, ids.item), ids.rest))
  }

  function ConstraintReader(pool: seq<string>, enums: seq<CommandEnum>): seq<Token> -> Parse<CommandEnumConstraint> {
    ts => DecodeConstraint(pool, enums, ts)
  }

  /**
   * The last three sections of `decodePayload`: the commands, the soft enums
   * and the constraints, resolving indices against the tables read before them.
   */
  function DecodeRest(pool: seq<string>, postfixes: seq<string>, enums: seq<CommandEnum>, ts: seq<Token>): Parse<PacketModel> {
    var commands :- ReadList(CommandReader(enums, postfixes), ts);
    var softEnums :- ReadList(SoftEnumReader(), commands.rest);
    var constraints :- ReadList(ConstraintReader(pool, enums), softEnums.rest);
    Some(Parsed(PacketModel(commands.item, HardcodedOf(enums), softEnums.item, constraints.item), constraints.rest))
  }

  /** `decodePayload`: the value pool, the postfix pool and the enum table, then the sections that refer to them. */
  function Decode(ts: seq<Token>): Parse<PacketModel> {
    var pool :- ReadList(StringReader(), ts);
    var postfixes :- ReadList(StringReader(), pool.rest);
    var enums :- ReadList(EnumReader(pool.item), postfixes.rest);
    DecodeRest(pool.item, postfixes.item, enums.item, enums.rest)
  }

  /** `decodePayload` stops at the first table that does not read. */
  lemma DecodeStops(t1: seq<Token>, t2: seq<Token>, t3: seq<Token>, pool: seq<string>)
    ensures ReadList(StringReader(), t1).None? ==> Decode(t1).None?
    ensures ReadList(StringReader(), t1) == Some(Parsed(pool, t2)) && ReadList(StringReader(), t2).None? ==>
            Decode(t1).None?
    ensures ReadList(StringReader(), t1) == Some(Parsed(pool, t2)) && ReadList(StringReader(), t2).Some? &&
            ReadList(StringReader(), t2).value.rest == t3 && ReadList(EnumReader(pool), t3).None? ==>
            Decode(t1).None?
  {
  }

  /** Once the two pools and the enum table are read, `decodePayload` goes on with the rest. */
  lemma DecodeTables(t1: seq<Token>, t2: seq<Token>, t3: seq<Token>, t4: seq<Token>,
                     pool: seq<string>, postfixes: seq<string>, enums: seq<CommandEnum>)
    requires ReadList(StringReader(), t1) == Some(Parsed(pool, t2))
    requires ReadList(StringReader(), t2) == Some(Parsed(postfixes, t3))
    requires ReadList(EnumReader(pool), t3) == Some(Parsed(enums, t4))
    ensures Decode(t1) == DecodeRest(pool, postfixes, enums, t4)
  {
  }

  /** `decodePayload` reads its six sections one after the other. */
  lemma DecodeSections(t1: seq<Token>, t2: seq<Token>, t3: seq<Token>, t4: seq<Token>, t5: seq<Token>, t6: seq<Token>,
                       rest: seq<Token>, pool: seq<string>, postfixes: seq<string>, enums: seq<CommandEnum>,
                       commands: seq<CommandData>, softEnums: seq<CommandEnum>, constraints: seq<CommandEnumConstraint>)
    requires ReadList(StringReader(), t1) == Some(Parsed(pool, t2))
    requires ReadList(StringReader(), t2) == Some(Parsed(postfixes, t3))
    requires ReadList(EnumReader(pool), t3) == Some(Parsed(enums, t4))
    requires ReadList(CommandReader(enums, postfixes), t4) == Some(Parsed(commands, t5))
    requires ReadList(SoftEnumReader(), t5) == Some(Parsed(softEnums, t6))
    requires ReadList(ConstraintReader(pool, enums), t6) == Some(Parsed(constraints, rest))
    ensures Decode(t1) == Some(Parsed(PacketModel(commands, HardcodedOf(enums), softEnums, constraints), rest))
  {
  }
}
