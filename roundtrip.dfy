/**
 * Decoding what the encoder wrote. The decoder does not give back the packet
 * exactly: a parameter's type word is the one the encoder computed (an enum
 * or postfix reference replaces whatever word the parameter held), a
 * parameter with both an enum and a postfix keeps only the enum, a
 * constraint's offset becomes the first position of its value, and
 * `hardcodedEnums` becomes the `CommandName` enums of the rebuilt table.
 * `Canonical` says exactly that; everything else comes back unchanged.
 */
module RoundTrip {
  import opened Wrappers
  import opened Wire
  import opened Commands
  import opened ParamType
  import opened Prepass
  import opened Decoder
  import opened Encoder

  predicate IsByte(x: int) {
    0 <= x < 0x100
  }

  /** A parameter whose fields fit the wire: a byte of flags, and a primitive word that decodes as one. */
  predicate ParameterFits(p: CommandParameter) {
    IsByte(p.flags) &&
    (p.enum.None? && p.postfix.None? ==>
       -0x8000_0000 <= p.paramType < 0x8000_0000 && Classify(p.paramType) == Primitive)
  }

  predicate CommandFits(c: CommandData) {
    IsByte(c.flags) && IsByte(c.permission) &&
    forall o, p :: o in c.overloads && p in o ==> ParameterFits(p)
  }

  /** The tables fit the index widths: 16-bit enum and postfix indices, signed 32-bit pool indices. */
  ghost predicate TablesFit(t: Tables) {
    t.Valid() &&
    |t.enumValueIndexes.keys| <= 0x8000_0000 &&
    |t.enums| <= 0x1_0000 &&
    |t.postfixIndexes.keys| <= 0x1_0000
  }

  /** The packets the encoder and decoder agree on. */
  ghost predicate WellFormed(m: PacketModel) {
    UniqueNames(m) &&
    TablesFit(Build(m)) &&
    (forall c :: c in m.commandData ==> CommandFits(c)) &&
    (forall c :: c in m.enumConstraints ==>
       c.enum in VisitedEnums(m) && c.AffectedValue().Some? && forall id :: id in c.constraints ==> IsByte(id))
  }

  /** What the decoder gives back for a parameter written with the tables `t`. */
  function CanonicalParameter(p: CommandParameter, t: Tables): CommandParameter {
    var word := match ParameterTypeWord(p, t.enumIndexes, t.postfixIndexes)
                case Some(w) => w
                case None => p.paramType;
    p.(paramType := word, postfix := if p.enum.Some? then None else p.postfix)
  }

  function CanonicalOverload(ps: seq<CommandParameter>, t: Tables): seq<CommandParameter> {
    seq(|ps|, i requires 0 <= i < |ps| => CanonicalParameter(ps[i], t))
  }

  function CanonicalCommand(c: CommandData, t: Tables): CommandData {
    c.(overloads := seq(|c.overloads|, i requires 0 <= i < |c.overloads| => CanonicalOverload(c.overloads[i], t)))
  }

  /** A constraint with its offset moved to the first position of its value. */
  function CanonicalConstraint(c: CommandEnumConstraint): CommandEnumConstraint {
    match c.AffectedValue()
    case None => c
    case Some(v) =>
      match IndexOf(c.enum.values, v)
      case None => c
      case Some(k) => c.(valueOffset := k)
  }

  function Canonical(m: PacketModel): PacketModel {
    var t := Build(m);
    PacketModel(
      seq(|m.commandData|, i requires 0 <= i < |m.commandData| => CanonicalCommand(m.commandData[i], t)),
      HardcodedOf(t.enums),
      m.softEnums,
      seq(|m.enumConstraints|, i requires 0 <= i < |m.enumConstraints| => CanonicalConstraint(m.enumConstraints[i])))
  }

  /** The table entry stored under `e`'s name is `e`. */
  ghost predicate Resolves(t: Tables, e: CommandEnum) {
    e.name in t.enumIndexes.index &&
    t.enumIndexes.index[e.name] < |t.enums| &&
    t.enums[t.enumIndexes.index[e.name]] == e
  }

  ghost predicate ParameterResolves(t: Tables, p: CommandParameter) {
    (p.enum.Some? ==> Resolves(t, p.enum.value)) &&
    (p.postfix.Some? ==> p.postfix.value in t.postfixIndexes.index)
  }

  ghost predicate CommandResolves(t: Tables, c: CommandData) {
    (c.aliases.Some? ==> Resolves(t, c.aliases.value)) &&
    forall o, p :: o in c.overloads && p in o ==> ParameterResolves(t, p)
  }

  // One record at a time.

  /** A pooled value reads back as itself. */
  lemma EnumValueReadsBack(t: Tables, v: string)
    requires TablesFit(t) && v in t.enumValueIndexes.index
    ensures ReadsBack(EnumValueReader(t.enumValueIndexes.keys), EnumValueWriter(t.enumValueIndexes), v, v)
  {
    var pool, vi := t.enumValueIndexes.keys, t.enumValueIndexes;
    IndexIsPosition(vi, v);
    forall r ensures EnumValueReader(pool)(EnumValueWriter(vi)(v).value + r) == Some(Parsed(v, r)) {
      EnumValueIndexRoundTrip(vi.index[v], |pool|, r);
    }
  }

  /** A table enum reads back as itself. */
  lemma EnumReadsBack(t: Tables, e: CommandEnum)
    requires TablesFit(t)
    requires forall v :: v in e.values ==> v in t.enumValueIndexes.index
    ensures ReadsBack(EnumReader(t.enumValueIndexes.keys), EnumWriter(t.enumValueIndexes), e, e)
  {
    var pool, vi := t.enumValueIndexes.keys, t.enumValueIndexes;
    forall i | 0 <= i < |e.values|
      ensures ReadsBack(EnumValueReader(pool), EnumValueWriter(vi), e.values[i], e.values[i])
    {
      EnumValueReadsBack(t, e.values[i]);
    }
    ReadPutList(EnumValueReader(pool), EnumValueWriter(vi), e.values, e.values, []);
    forall r ensures EnumReader(pool)(EnumWriter(vi)(e).value + r) == Some(Parsed(e, r)) {
      ReadPutList(EnumValueReader(pool), EnumValueWriter(vi), e.values, e.values, r);
      EnumFieldsReadBack(pool, e, PutList(e.values, EnumValueWriter(vi)).value, r);
    }
  }

  /** An enum's name reads back, followed by whatever its value indices read as. */
  lemma EnumFieldsReadBack(pool: seq<string>, e: CommandEnum, body: seq<Token>, r: seq<Token>)
    requires ReadList(EnumValueReader(pool), body + r) == Some(Parsed(e.values, r))
    ensures DecodeEnum(pool, [Str(e.name)] + body + r) == Some(Parsed(e, r))
  {
    var ts := [Str(e.name)] + (body + r);
    assert [Str(e.name)] + body + r == ts;
    assert ReadString(ts) == Some(Parsed(e.name, body + r)) by { assert ts[1..] == body + r; }
  }

  /** A soft enum reads back as itself. */
  lemma SoftEnumReadsBack(e: CommandEnum)
    ensures ReadsBack(SoftEnumReader(), SoftEnumWriter(), e, e)
  {
    StringsRoundTrip(e.values, []);
    forall r ensures SoftEnumReader()(SoftEnumWriter()(e).value + r) == Some(Parsed(e, r)) {
      StringsRoundTrip(e.values, r);
      var values := PutList(e.values, StringWriter());
      assert ([Str(e.name)] + values.value) + r == [Str(e.name)] + (values.value + r);
    }
  }

  /** The four fields of a parameter, read back, then checked as the decoder checks them. */
  lemma ParameterFieldsReadBack(enums: seq<CommandEnum>, postfixes: seq<string>, p: CommandParameter, word: int, r: seq<Token>)
    requires -0x8000_0000 <= word < 0x8000_0000 && IsByte(p.flags)
    ensures DecodeParameter(enums, postfixes, [Str(p.paramName), LIntToken(word), Bool(p.isOptional), ByteToken(p.flags)] + r) ==
            match ResolveParameterType(enums, postfixes, CommandParameter(p.paramName, word, p.isOptional, p.flags, None, None))
            case None => None
            case Some(q) => Some(Parsed(q, r))
  {
    var ts := [Str(p.paramName), LIntToken(word), Bool(p.isOptional), ByteToken(p.flags)] + r;
    assert ts[1..] == [LIntToken(word)] + ([Bool(p.isOptional)] + ([ByteToken(p.flags)] + r));
    LIntRoundTrip(word, [Bool(p.isOptional)] + ([ByteToken(p.flags)] + r));
    ByteRoundTrip(p.flags, r);
  }

  /** The word the encoder writes resolves, against the same tables, to the canonical parameter. */
  lemma WrittenWordResolves(t: Tables, p: CommandParameter)
    requires TablesFit(t) && ParameterFits(p) && ParameterResolves(t, p)
    ensures ParameterTypeWord(p, t.enumIndexes, t.postfixIndexes).Some?
    ensures var word := ParameterTypeWord(p, t.enumIndexes, t.postfixIndexes).value;
      -0x8000_0000 <= word < 0x8000_0000 &&
      ResolveParameterType(t.enums, t.postfixIndexes.keys, CommandParameter(p.paramName, word, p.isOptional, p.flags, None, None))
        == Some(CanonicalParameter(p, t))
  {
    if p.enum.Some? {
      EnumTypeWordClassifies(t.enumIndexes.index[p.enum.value.name]);
    } else if p.postfix.Some? {
      IndexIsPosition(t.postfixIndexes, p.postfix.value);
      PostfixTypeWordClassifies(t.postfixIndexes.index[p.postfix.value]);
    }
  }

  /** A parameter reads back in its canonical form. */
  lemma ParameterReadsBack(t: Tables, p: CommandParameter)
    requires TablesFit(t) && ParameterFits(p) && ParameterResolves(t, p)
    ensures ReadsBack(ParameterReader(t.enums, t.postfixIndexes.keys),
                      ParameterWriter(t.enumIndexes, t.postfixIndexes), p, CanonicalParameter(p, t))
  {
    WrittenWordResolves(t, p);
    var word := ParameterTypeWord(p, t.enumIndexes, t.postfixIndexes).value;
    forall r ensures ParameterReader(t.enums, t.postfixIndexes.keys)(ParameterWriter(t.enumIndexes, t.postfixIndexes)(p).value + r)
                     == Some(Parsed(CanonicalParameter(p, t), r))
    {
      ParameterFieldsReadBack(t.enums, t.postfixIndexes.keys, p, word, r);
    }
  }

  lemma OverloadReadsBack(t: Tables, ps: seq<CommandParameter>)
    requires TablesFit(t)
    requires forall p :: p in ps ==> ParameterFits(p) && ParameterResolves(t, p)
    ensures ReadsBack(OverloadReader(t.enums, t.postfixIndexes.keys),
                      OverloadWriter(t.enumIndexes, t.postfixIndexes), ps, CanonicalOverload(ps, t))
  {
    var ys := CanonicalOverload(ps, t);
    forall i | 0 <= i < |ps|
      ensures ReadsBack(ParameterReader(t.enums, t.postfixIndexes.keys),
                        ParameterWriter(t.enumIndexes, t.postfixIndexes), ps[i], ys[i])
    {
      ParameterReadsBack(t, ps[i]);
    }
    ReadPutList(ParameterReader(t.enums, t.postfixIndexes.keys), ParameterWriter(t.enumIndexes, t.postfixIndexes), ps, ys, []);
    forall r ensures OverloadReader(t.enums, t.postfixIndexes.keys)(OverloadWriter(t.enumIndexes, t.postfixIndexes)(ps).value + r)
                     == Some(Parsed(ys, r))
    {
      ReadPutList(ParameterReader(t.enums, t.postfixIndexes.keys), ParameterWriter(t.enumIndexes, t.postfixIndexes), ps, ys, r);
    }
  }

  /** The alias index reads back as the table position of the alias enum, or as "no aliases". */
  lemma AliasReadsBack(t: Tables, c: CommandData, rest: seq<Token>)
    requires TablesFit(t) && (c.aliases.Some? ==> Resolves(t, c.aliases.value))
    ensures ReadLInt([LIntToken(AliasIndex(c, t.enumIndexes))] + rest).Some?
    ensures AliasOf(t.enums, ReadLInt([LIntToken(AliasIndex(c, t.enumIndexes))] + rest).value.item) == c.aliases
    ensures ReadLInt([LIntToken(AliasIndex(c, t.enumIndexes))] + rest).value.rest == rest
  {
    LIntRoundTrip(AliasIndex(c, t.enumIndexes), rest);
  }

  /** A command's header and alias word read back, followed by whatever its overloads read as. */
  lemma CommandFieldsReadBack(enums: seq<CommandEnum>, postfixes: seq<string>, c: CommandData, alias: int,
                              body: seq<Token>, overloads: seq<seq<CommandParameter>>, r: seq<Token>)
    requires IsByte(c.flags) && IsByte(c.permission) && -0x8000_0000 <= alias < 0x8000_0000
    requires ReadList(OverloadReader(enums, postfixes), body + r) == Some(Parsed(overloads, r))
    ensures DecodeCommand(enums, postfixes,
              [Str(c.name), Str(c.description), ByteToken(c.flags), ByteToken(c.permission), LIntToken(alias)] + body + r)
            == Some(Parsed(CommandData(c.name, c.description, c.flags, c.permission, AliasOf(enums, alias), overloads), r))
  {
    var ts := [Str(c.name), Str(c.description), ByteToken(c.flags), ByteToken(c.permission), LIntToken(alias)] + body + r;
    var t5 := [LIntToken(alias)] + (body + r);
    var t4 := [ByteToken(c.permission)] + t5;
    var t3 := [ByteToken(c.flags)] + t4;
    var t2 := [Str(c.description)] + t3;
    assert ts == [Str(c.name)] + t2;
    assert ReadString(ts) == Some(Parsed(c.name, t2)) by { assert ts[1..] == t2; }
    assert ReadString(t2) == Some(Parsed(c.description, t3)) by { assert t2[1..] == t3; }
    ByteRoundTrip(c.flags, t4);
    ByteRoundTrip(c.permission, t5);
    LIntRoundTrip(alias, body + r);
  }

  lemma CommandReadsBack(t: Tables, c: CommandData)
    requires TablesFit(t) && CommandFits(c) && CommandResolves(t, c)
    ensures ReadsBack(CommandReader(t.enums, t.postfixIndexes.keys),
                      CommandWriter(t.enumIndexes, t.postfixIndexes), c, CanonicalCommand(c, t))
  {
    var os := c.overloads;
    var ys := CanonicalCommand(c, t).overloads;
    forall i | 0 <= i < |os|
      ensures ReadsBack(OverloadReader(t.enums, t.postfixIndexes.keys),
                        OverloadWriter(t.enumIndexes, t.postfixIndexes), os[i], ys[i])
    {
      assert os[i] in os;
      OverloadReadsBack(t, os[i]);
    }
    var alias := AliasIndex(c, t.enumIndexes);
    assert -0x8000_0000 <= alias < 0x8000_0000 && AliasOf(t.enums, alias) == c.aliases;
    ReadPutList(OverloadReader(t.enums, t.postfixIndexes.keys), OverloadWriter(t.enumIndexes, t.postfixIndexes), os, ys, []);
    forall r ensures CommandReader(t.enums, t.postfixIndexes.keys)(CommandWriter(t.enumIndexes, t.postfixIndexes)(c).value + r)
                     == Some(Parsed(CanonicalCommand(c, t), r))
    {
      var body := PutList(os, OverloadWriter(t.enumIndexes, t.postfixIndexes)).value;
      ReadPutList(OverloadReader(t.enums, t.postfixIndexes.keys), OverloadWriter(t.enumIndexes, t.postfixIndexes), os, ys, r);
      CommandFieldsReadBack(t.enums, t.postfixIndexes.keys, c, alias, body, ys, r);
    }
  }

  lemma ConstraintReadsBack(t: Tables, c: CommandEnumConstraint)
    requires TablesFit(t) && Resolves(t, c.enum)
    requires c.AffectedValue().Some? && c.AffectedValue().value in t.enumValueIndexes.index
    requires forall id :: id in c.constraints ==> IsByte(id)
    ensures ReadsBack(ConstraintReader(t.enumValueIndexes.keys, t.enums),
                      ConstraintWriter(t.enumIndexes, t.enumValueIndexes), c, CanonicalConstraint(c))
  {
    var v := c.AffectedValue().value;
    var vi, ei := t.enumValueIndexes.index[v], t.enumIndexes.index[c.enum.name];
    IndexIsPosition(t.enumValueIndexes, v);
    forall i | 0 <= i < |c.constraints| ensures 0 <= c.constraints[i] < 0x100 {
      assert c.constraints[i] in c.constraints;
    }
    BytesRoundTrip(c.constraints, []);
    assert v in c.enum.values;
    var offset := IndexOf(c.enum.values, v).value;
    assert CanonicalConstraint(c) == CommandEnumConstraint(t.enums[ei], offset, c.constraints);
    forall r ensures ConstraintReader(t.enumValueIndexes.keys, t.enums)(ConstraintWriter(t.enumIndexes, t.enumValueIndexes)(c).value + r)
                     == Some(Parsed(CanonicalConstraint(c), r))
    {
      var ids := PutList(c.constraints, ByteWriter()).value;
      BytesRoundTrip(c.constraints, r);
      ConstraintFieldsReadBack(t.enumValueIndexes.keys, t.enums, vi, ei, offset, ids, c.constraints, r);
    }
  }

  /** A constraint's two index words read back, followed by whatever its id list reads as. */
  lemma ConstraintFieldsReadBack(pool: seq<string>, enums: seq<CommandEnum>, vi: int, ei: int, offset: nat,
                                 body: seq<Token>, ids: seq<int>, r: seq<Token>)
    requires 0 <= vi < |pool| && vi < 0x8000_0000 && 0 <= ei < |enums| && ei < 0x8000_0000
    requires IndexOf(enums[ei].values, pool[vi]) == Some(offset)
    requires ReadList(ByteReader(), body + r) == Some(Parsed(ids, r))
    ensures DecodeConstraint(pool, enums, [LIntToken(vi), LIntToken(ei)] + body + r)
            == Some(Parsed(CommandEnumConstraint(enums[ei], offset, ids), r))
  {
    var t2 := [LIntToken(ei)] + (body + r);
    assert [LIntToken(vi), LIntToken(ei)] + body + r == [LIntToken(vi)] + t2;
    LIntRoundTrip(vi, t2);
    LIntRoundTrip(ei, body + r);
  }

  // The whole payload.

  /** Every command of a well-formed packet resolves against the rebuilt tables. */
  lemma CommandsResolve(m: PacketModel)
    requires UniqueNames(m)
    ensures forall c :: c in m.commandData ==> CommandResolves(Build(m), c)
  {
    Visited(m);
    VisitedInTables(m);
    forall e | e in VisitedEnums(m) ensures Resolves(Build(m), e) {
      TableEntry(m, e);
    }
  }

  /** The enum table the encoder writes reads back as itself. */
  lemma EnumSectionReadsBack(m: PacketModel, rest: seq<Token>)
    requires WellFormed(m)
    ensures var t := Build(m);
      PutList(t.enums, EnumWriter(t.enumValueIndexes)).Some? &&
      ReadList(EnumReader(t.enumValueIndexes.keys), PutList(t.enums, EnumWriter(t.enumValueIndexes)).value + rest)
        == Some(Parsed(t.enums, rest))
  {
    var t := Build(m);
    forall i | 0 <= i < |t.enums|
      ensures ReadsBack(EnumReader(t.enumValueIndexes.keys), EnumWriter(t.enumValueIndexes), t.enums[i], t.enums[i])
    {
      EnumReadsBack(t, t.enums[i]);
    }
    ReadPutList(EnumReader(t.enumValueIndexes.keys), EnumWriter(t.enumValueIndexes), t.enums, t.enums, rest);
  }

  /** The commands the encoder writes read back in canonical form. */
  lemma CommandSectionReadsBack(m: PacketModel, rest: seq<Token>)
    requires WellFormed(m)
    ensures var t := Build(m);
      PutList(m.commandData, CommandWriter(t.enumIndexes, t.postfixIndexes)).Some? &&
      ReadList(CommandReader(t.enums, t.postfixIndexes.keys),
               PutList(m.commandData, CommandWriter(t.enumIndexes, t.postfixIndexes)).value + rest)
        == Some(Parsed(Canonical(m).commandData, rest))
  {
    var t := Build(m);
    var cs := m.commandData;
    CommandsResolve(m);
    forall i | 0 <= i < |cs|
      ensures ReadsBack(CommandReader(t.enums, t.postfixIndexes.keys), CommandWriter(t.enumIndexes, t.postfixIndexes),
                        cs[i], Canonical(m).commandData[i])
    {
      assert cs[i] in cs;
      CommandReadsBack(t, cs[i]);
    }
    ReadPutList(CommandReader(t.enums, t.postfixIndexes.keys), CommandWriter(t.enumIndexes, t.postfixIndexes),
                cs, Canonical(m).commandData, rest);
  }

  /** The constraints the encoder writes read back with their offsets at first occurrences. */
  lemma ConstraintSectionReadsBack(m: PacketModel, rest: seq<Token>)
    requires WellFormed(m)
    ensures var t := Build(m);
      PutList(m.enumConstraints, ConstraintWriter(t.enumIndexes, t.enumValueIndexes)).Some? &&
      ReadList(ConstraintReader(t.enumValueIndexes.keys, t.enums),
               PutList(m.enumConstraints, ConstraintWriter(t.enumIndexes, t.enumValueIndexes)).value + rest)
        == Some(Parsed(Canonical(m).enumConstraints, rest))
  {
    var t := Build(m);
    var cs := m.enumConstraints;
    VisitedInTables(m);
    forall i | 0 <= i < |cs|
      ensures ReadsBack(ConstraintReader(t.enumValueIndexes.keys, t.enums), ConstraintWriter(t.enumIndexes, t.enumValueIndexes),
                        cs[i], Canonical(m).enumConstraints[i])
    {
      var c := cs[i];
      assert c in cs;
      TableEntry(m, c.enum);
      ConstraintReadsBack(t, c);
    }
    ReadPutList(ConstraintReader(t.enumValueIndexes.keys, t.enums), ConstraintWriter(t.enumIndexes, t.enumValueIndexes),
                cs, Canonical(m).enumConstraints, rest);
  }

  /** The soft enums read back verbatim. */
  lemma SoftEnumSectionReadsBack(es: seq<CommandEnum>, rest: seq<Token>)
    ensures PutList(es, SoftEnumWriter()).Some?
    ensures ReadList(SoftEnumReader(), PutList(es, SoftEnumWriter()).value + rest) == Some(Parsed(es, rest))
  {
    forall i | 0 <= i < |es| ensures ReadsBack(SoftEnumReader(), SoftEnumWriter(), es[i], es[i]) {
      SoftEnumReadsBack(es[i]);
    }
    ReadPutList(SoftEnumReader(), SoftEnumWriter(), es, es, rest);
  }

  lemma Reassociate(s1: seq<Token>, s2: seq<Token>, s3: seq<Token>, s4: seq<Token>, s5: seq<Token>, s6: seq<Token>, rest: seq<Token>)
    ensures (s1 + (s2 + (s3 + (s4 + (s5 + s6))))) + rest == s1 + (s2 + (s3 + (s4 + (s5 + (s6 + rest)))))
  {
  }

  /**
   * Decoding the encoder's output of a well-formed packet gives the packet
   * back in canonical form, and leaves whatever followed the payload unread.
   */
  lemma DecodeEncode(m: PacketModel, rest: seq<Token>)
    requires WellFormed(m)
    ensures Encode(m).Some?
    ensures Decode(Encode(m).value + rest) == Some(Parsed(Canonical(m), rest))
  {
    var t := Build(m);
    var pool, postfixes := t.enumValueIndexes.keys, t.postfixIndexes.keys;
    StringsRoundTrip(pool, []);
    StringsRoundTrip(postfixes, []);
    EnumSectionReadsBack(m, []);
    CommandSectionReadsBack(m, []);
    SoftEnumSectionReadsBack(m.softEnums, []);
    ConstraintSectionReadsBack(m, []);
    var s1 := PutList(pool, StringWriter()).value;
    var s2 := PutList(postfixes, StringWriter()).value;
    var s3 := PutList(t.enums, EnumWriter(t.enumValueIndexes)).value;
    var s4 := PutList(m.commandData, CommandWriter(t.enumIndexes, t.postfixIndexes)).value;
    var s5 := PutList(m.softEnums, SoftEnumWriter()).value;
    var s6 := PutList(m.enumConstraints, ConstraintWriter(t.enumIndexes, t.enumValueIndexes)).value;
    assert Encode(m) == Some(s1 + (s2 + (s3 + (s4 + (s5 + s6)))));
    Reassociate(s1, s2, s3, s4, s5, s6, rest);
    var t6 := s6 + rest;
    var t5 := s5 + t6;
    var t4 := s4 + t5;
    var t3 := s3 + t4;
    var t2 := s2 + t3;
    StringsRoundTrip(pool, t2);
    StringsRoundTrip(postfixes, t3);
    EnumSectionReadsBack(m, t4);
    CommandSectionReadsBack(m, t5);
    SoftEnumSectionReadsBack(m.softEnums, t6);
    ConstraintSectionReadsBack(m, rest);
    DecodeSections(s1 + t2, t2, t3, t4, t5, t6, rest, pool, postfixes, t.enums,
                   Canonical(m).commandData, m.softEnums, Canonical(m).enumConstraints);
  }
}
