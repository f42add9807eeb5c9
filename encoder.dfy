/**
 * What encoding the version-361 AvailableCommands payload computes, as
 * functions from the packet's fields to tokens. `None` stands for the
 * exceptions the packet code throws (a value or postfix missing from its
 * table) and for a constraint the pass cannot resolve.
 *
 * The tables come from the first pass (module Prepass); the six sections are
 * then written in the order the decoder reads them.
 */
module Encoder {
  import opened Wrappers
  import opened Wire
  import opened Commands
  import opened ParamType
  import opened Prepass
  import opened Decoder

  /** `putEnumValueIndex`: a byte, a little-endian short or a little-endian int, by pool size. */
  function EncodeEnumValueIndex(index: int, valueCount: nat): (r: Token)
    ensures IsFixedWidth(r) && ByteWidth(r) == IndexWidth(valueCount)
  {
    if valueCount < 0x100 then ByteToken(index)
    else if valueCount < 0x1_0000 then LShortToken(index)
    else LIntToken(index)
  }

  /** One step of `putEnum`'s loop: the pool index of a value; a value not pooled throws. */
  function EnumValueWriter(pool: IndexMap): string -> Option<seq<Token>> {
    v => if v in pool.index then Some([EncodeEnumValueIndex(pool.index[v], pool.Count())]) else None
  }

  /** `putEnum`: the name, then the values as pool indices. */
  function EncodeEnum(e: CommandEnum, pool: IndexMap): Option<seq<Token>> {
    var values :- PutList(e.values, EnumValueWriter(pool));
    Some([Str(e.name)] + values)
  }

  function EnumWriter(pool: IndexMap): CommandEnum -> Option<seq<Token>> {
    e => EncodeEnum(e, pool)
  }

  /**
   * The type word `putCommandData` writes: an enum parameter gets the ENUM and
   * VALID flags over its table index (-1, every bit set, for a name not in the
   * table); otherwise a postfix parameter gets the POSTFIX flag over its pool
   * index, and a postfix not pooled throws; otherwise the stored word is kept.
   */
  function ParameterTypeWord(p: CommandParameter, enumIndexes: IndexMap, postfixIndexes: IndexMap): Option<int> {
    if p.enum.Some? then
      var name := p.enum.value.name;
      Some(EnumTypeWord(if name in enumIndexes.index then enumIndexes.index[name] else -1))
    else if p.postfix.Some? then
      if p.postfix.value in postfixIndexes.index then Some(PostfixTypeWord(postfixIndexes.index[p.postfix.value]))
      else None
    else Some(p.paramType)
  }

  /** One parameter: name, type word, optional flag, flags byte. */
  function EncodeParameter(p: CommandParameter, enumIndexes: IndexMap, postfixIndexes: IndexMap): Option<seq<Token>> {
    var word :- ParameterTypeWord(p, enumIndexes, postfixIndexes);
    Some([Str(p.paramName), LIntToken(word), Bool(p.isOptional), ByteToken(p.flags)])
  }

  function ParameterWriter(enumIndexes: IndexMap, postfixIndexes: IndexMap): CommandParameter -> Option<seq<Token>> {
    p => EncodeParameter(p, enumIndexes, postfixIndexes)
  }

  function OverloadWriter(enumIndexes: IndexMap, postfixIndexes: IndexMap): seq<CommandParameter> -> Option<seq<Token>> {
    ps => PutList(ps, ParameterWriter(enumIndexes, postfixIndexes))
  }

  /** The alias index `putCommandData` writes: the table index of the alias enum's name, or -1. */
  function AliasIndex(c: CommandData, enumIndexes: IndexMap): int {
    if c.aliases.Some? && c.aliases.value.name in enumIndexes.index then enumIndexes.index[c.aliases.value.name] else -1
  }

  /** `putCommandData`: the header, the alias index, then the overloads. */
  function EncodeCommand(c: CommandData, enumIndexes: IndexMap, postfixIndexes: IndexMap): Option<seq<Token>> {
    var overloads :- PutList(c.overloads, OverloadWriter(enumIndexes, postfixIndexes));
    Some([Str(c.name), Str(c.description), ByteToken(c.flags), ByteToken(c.permission),
          LIntToken(AliasIndex(c, enumIndexes))] + overloads)
  }

  function CommandWriter(enumIndexes: IndexMap, postfixIndexes: IndexMap): CommandData -> Option<seq<Token>> {
    c => EncodeCommand(c, enumIndexes, postfixIndexes)
  }

  /** `putSoftEnum`: the name and the values as strings. */
  function EncodeSoftEnum(e: CommandEnum): Option<seq<Token>> {
    var values :- PutList(e.values, StringWriter());
    Some([Str(e.name)] + values)
  }

  function SoftEnumWriter(): CommandEnum -> Option<seq<Token>> {
    e => EncodeSoftEnum(e)
  }

  /**
   * `putEnumConstraint`: the pool index of the affected value, the table index
   * of the enum's name, then the constraint ids as bytes. A lookup that misses
   * has no value to write and fails.
   */
  function EncodeConstraint(c: CommandEnumConstraint, enumIndexes: IndexMap, valueIndexes: IndexMap): Option<seq<Token>> {
    var v :- c.AffectedValue();
    if v !in valueIndexes.index || c.enum.name !in enumIndexes.index then None
    else
      var ids :- PutList(c.constraints, ByteWriter());
      Some([LIntToken(valueIndexes.index[v]), LIntToken(enumIndexes.index[c.enum.name])] + ids)
  }

  function ConstraintWriter(enumIndexes: IndexMap, valueIndexes: IndexMap): CommandEnumConstraint -> Option<seq<Token>> {
    c => EncodeConstraint(c, enumIndexes, valueIndexes)
  }

  /** `encodePayload`: the pass, then the pools, the enum table, the commands, the soft enums and the constraints. */
  function Encode(m: PacketModel): Option<seq<Token>> {
    var t := Build(m);
    var pool :- PutList(t.enumValueIndexes.keys, StringWriter());
    var postfixes :- PutList(t.postfixIndexes.keys, StringWriter());
    var enums :- PutList(t.enums, EnumWriter(t.enumValueIndexes));
    var commands :- PutList(m.commandData, CommandWriter(t.enumIndexes, t.postfixIndexes));
    var softEnums :- PutList(m.softEnums, SoftEnumWriter());
    var constraints :- PutList(m.enumConstraints, ConstraintWriter(t.enumIndexes, t.enumValueIndexes));
    Some(pool + (postfixes + (enums + (commands + (softEnums + constraints)))))
  }

  // Lemmas.

  /** `EncodeCommand` as its header followed by the overloads, when those can be written. */
  lemma EncodeCommandParts(c: CommandData, enumIndexes: IndexMap, postfixIndexes: IndexMap)
    ensures PutList(c.overloads, OverloadWriter(enumIndexes, postfixIndexes)).None? ==>
            EncodeCommand(c, enumIndexes, postfixIndexes).None?
    ensures PutList(c.overloads, OverloadWriter(enumIndexes, postfixIndexes)).Some? ==>
            EncodeCommand(c, enumIndexes, postfixIndexes) ==
            Some([Str(c.name), Str(c.description), ByteToken(c.flags), ByteToken(c.permission),
                  LIntToken(AliasIndex(c, enumIndexes))] + PutList(c.overloads, OverloadWriter(enumIndexes, postfixIndexes)).value)
  {
  }

  /** `Encode` as the concatenation of its six sections, each written against the tables of the pass. */
  lemma EncodeSections(m: PacketModel, s1: seq<Token>, s2: seq<Token>, s3: seq<Token>,
                       s4: seq<Token>, s5: seq<Token>, s6: seq<Token>)
    requires PutList(Build(m).enumValueIndexes.keys, StringWriter()) == Some(s1)
    requires PutList(Build(m).postfixIndexes.keys, StringWriter()) == Some(s2)
    requires PutList(Build(m).enums, EnumWriter(Build(m).enumValueIndexes)) == Some(s3)
    requires PutList(m.commandData, CommandWriter(Build(m).enumIndexes, Build(m).postfixIndexes)) == Some(s4)
    requires PutList(m.softEnums, SoftEnumWriter()) == Some(s5)
    requires PutList(m.enumConstraints, ConstraintWriter(Build(m).enumIndexes, Build(m).enumValueIndexes)) == Some(s6)
    ensures Encode(m) == Some(s1 + (s2 + (s3 + (s4 + (s5 + s6)))))
  {
  }

  /** `Encode` fails when a section after the pools fails. */
  lemma EncodeFails(m: PacketModel)
    requires PutList(Build(m).enums, EnumWriter(Build(m).enumValueIndexes)).None? ||
             PutList(m.commandData, CommandWriter(Build(m).enumIndexes, Build(m).postfixIndexes)).None? ||
             PutList(m.enumConstraints, ConstraintWriter(Build(m).enumIndexes, Build(m).enumValueIndexes)).None?
    ensures Encode(m).None?
  {
  }

  /** The width switches at pools of 256 and 65536 values. */
  lemma IndexWidthBoundaries()
    ensures IndexWidth(0) == 1 && IndexWidth(255) == 1
    ensures IndexWidth(256) == 2 && IndexWidth(65535) == 2
    ensures IndexWidth(65536) == 4
  {
  }

  /** An index into the pool, written with the pool's width, reads back as itself. */
  lemma EnumValueIndexRoundTrip(index: int, valueCount: nat, rest: seq<Token>)
    requires 0 <= index < valueCount <= 0x8000_0000
    ensures ReadEnumValueIndex(valueCount, [EncodeEnumValueIndex(index, valueCount)] + rest) == Some(Parsed(index, rest))
  {
    assert ([EncodeEnumValueIndex(index, valueCount)] + rest)[1..] == rest;
  }

  /** `putEnum` throws exactly when one of the enum's values is missing from the pool. */
  lemma EncodeEnumSome(e: CommandEnum, pool: IndexMap)
    ensures EncodeEnum(e, pool).Some? <==> forall v :: v in e.values ==> v in pool.index
  {
    PutAllSome(e.values, EnumValueWriter(pool));
  }

  /** The type word fails only for a postfix parameter whose postfix is not pooled. */
  lemma ParameterTypeWordSome(p: CommandParameter, enumIndexes: IndexMap, postfixIndexes: IndexMap)
    ensures ParameterTypeWord(p, enumIndexes, postfixIndexes).None? <==>
            p.enum.None? && p.postfix.Some? && p.postfix.value !in postfixIndexes.index
  {
  }

  /** Every parameter of the overloads writes once every postfix it uses is pooled. */
  lemma {:induction false} OverloadsEncodable(os: seq<seq<CommandParameter>>, enumIndexes: IndexMap, postfixIndexes: IndexMap)
    requires forall o, p :: o in os && p in o && p.postfix.Some? ==> p.postfix.value in postfixIndexes.index
    ensures PutList(os, OverloadWriter(enumIndexes, postfixIndexes)).Some?
  {
    forall i | 0 <= i < |os| ensures OverloadWriter(enumIndexes, postfixIndexes)(os[i]).Some? {
      forall j | 0 <= j < |os[i]| ensures ParameterWriter(enumIndexes, postfixIndexes)(os[i][j]).Some? {
        assert os[i][j] in os[i];
      }
      PutAllSome(os[i], ParameterWriter(enumIndexes, postfixIndexes));
    }
    PutAllSome(os, OverloadWriter(enumIndexes, postfixIndexes));
  }

  /** Every table enum writes once every table enum's values are pooled. */
  lemma EnumsEncodable(t: Tables)
    requires t.Valid()
    ensures PutList(t.enums, EnumWriter(t.enumValueIndexes)).Some?
  {
    forall i | 0 <= i < |t.enums| ensures EnumWriter(t.enumValueIndexes)(t.enums[i]).Some? {
      EncodeEnumSome(t.enums[i], t.enumValueIndexes);
    }
    PutAllSome(t.enums, EnumWriter(t.enumValueIndexes));
  }

  /** Every command writes once every postfix of its parameters is pooled. */
  lemma CommandsEncodable(cs: seq<CommandData>, enumIndexes: IndexMap, postfixIndexes: IndexMap)
    requires forall c, o, p :: c in cs && o in c.overloads && p in o && p.postfix.Some? ==>
               p.postfix.value in postfixIndexes.index
    ensures PutList(cs, CommandWriter(enumIndexes, postfixIndexes)).Some?
  {
    forall i | 0 <= i < |cs| ensures CommandWriter(enumIndexes, postfixIndexes)(cs[i]).Some? {
      assert cs[i] in cs;
      OverloadsEncodable(cs[i].overloads, enumIndexes, postfixIndexes);
    }
    PutAllSome(cs, CommandWriter(enumIndexes, postfixIndexes));
  }

  /** Soft enums are written as plain strings and never fail. */
  lemma SoftEnumsEncodable(es: seq<CommandEnum>)
    ensures PutList(es, SoftEnumWriter()).Some?
  {
    forall i | 0 <= i < |es| ensures SoftEnumWriter()(es[i]).Some? {
      StringsRoundTrip(es[i].values, []);
    }
    PutAllSome(es, SoftEnumWriter());
  }

  /** A constraint writes exactly when its value and its enum's name are both registered. */
  lemma ConstraintsEncodable(cs: seq<CommandEnumConstraint>, enumIndexes: IndexMap, valueIndexes: IndexMap)
    ensures PutList(cs, ConstraintWriter(enumIndexes, valueIndexes)).Some? <==>
            forall c :: c in cs ==>
              c.AffectedValue().Some? && c.AffectedValue().value in valueIndexes.index && c.enum.name in enumIndexes.index
  {
    forall c: CommandEnumConstraint ensures PutList(c.constraints, ByteWriter()).Some? {
      PutAllSome(c.constraints, ByteWriter());
    }
    PutAllSome(cs, ConstraintWriter(enumIndexes, valueIndexes));
    assert (forall c :: c in cs ==> ConstraintWriter(enumIndexes, valueIndexes)(c).Some?) <==>
           (forall i :: 0 <= i < |cs| ==> ConstraintWriter(enumIndexes, valueIndexes)(cs[i]).Some?);
  }

  /**
   * The pass makes every `putEnum`, `putCommandData` and `putSoftEnum` succeed:
   * the encoder fails only on a constraint whose value or enum name the pass
   * did not register (or whose offset is outside its enum).
   */
  lemma EncodeSome(m: PacketModel)
    ensures Encode(m).Some? <==>
            forall c :: c in m.enumConstraints ==>
              c.AffectedValue().Some? &&
              c.AffectedValue().value in Build(m).enumValueIndexes.index &&
              c.enum.name in Build(m).enumIndexes.index
  {
    var t := Build(m);
    VisitedInTables(m);
    Visited(m);
    StringsRoundTrip(t.enumValueIndexes.keys, []);
    StringsRoundTrip(t.postfixIndexes.keys, []);
    EnumsEncodable(t);
    CommandsEncodable(m.commandData, t.enumIndexes, t.postfixIndexes);
    SoftEnumsEncodable(m.softEnums);
    ConstraintsEncodable(m.enumConstraints, t.enumIndexes, t.enumValueIndexes);
  }
}
