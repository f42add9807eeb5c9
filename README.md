# AvailableCommands packet, protocol version 361

A Dafny model of `v361AvailableCommandsPacket`, the Bedrock `AvailableCommands`
packet codec for protocol 361. The packet carries four lists: the commands
(`commandData`), the hardcoded enums (`hardcodedEnums`), the soft enums
(`softEnums`) and the enum constraints (`enumConstraints`). On the wire they
appear as six sections, in this order:

1. a pool of enum values;
2. a pool of postfixes;
3. an enum table, each enum listing its values as indices into the pool;
4. the commands, whose parameters refer to the enum table or the postfix pool
   by index inside a 32-bit type word;
5. the soft enums, written as plain strings;
6. the constraints, each referring to a pool value and a table enum.

Decoding turns the indices back into enums and strings and fails on a bad
index. Encoding first runs a pass over the packet that collects every enum,
value and postfix in first-encounter order, and then writes the six sections.

The project has these modules:

- `Wrappers` (wrappers.dfy): the `Option` type. `None` is the single failure outcome.
- `Wire` (wire.dfy): the payload as a sequence of tokens.
  - There is one token per serializer primitive: varint, string, byte, little-endian short and int, bool.
  - Fixed-width tokens keep their byte width.
  - Counted loops for reading (`Repeat`, `ReadList`) and writing (`PutAll`, `PutList`), with their lemmas.
  - The `Cursor` class (read side) and the `Writer` class (write side).
- `Commands` (commands.dfy): the packet's value types and `HARDCODED_ENUM_NAMES`.
- `ParamType` (param_type.dfy): the `ARG_*` constants and the type-word bit tests, written arithmetically.
- `Decoder` (decoder.dfy): what decoding computes, as functions over tokens.
- `DecoderFacts` (decoder_facts.dfy): what each decode step accepts and what it yields.
- `Prepass` (prepass.dfy):
  - the encoder's first pass (`$addEnumFn` and the loops around it);
  - a description of that pass that does not follow its loops (first occurrences over a flat list of visits);
  - the proof that the pass matches the description.
- `Encoder` (encoder.dfy): what encoding computes, and when it fails.
- `RoundTrip` (roundtrip.dfy): decoding the encoder's output of a well-formed packet gives the packet back.
- `Reencode` (reencode.dfy): a packet whose decoded form encodes differently.
- `Packet` (packet.dfy): the class `AvailableCommandsPacket`.
  - Its fields are the four lists.
  - Its methods run the source's loops over a `Cursor` or a `Writer`.
  - Each method is proved equal to the corresponding `Decoder` or `Encoder` function.

## Model

| member | source | states |
|---|---|---|
| ParamType.HasFlag | src/MultiVersion/network/proto/v361/packets/v361AvailableCommandsPacket.php:195 | `($word & $flag) !== 0` for a one-bit flag, written as integer arithmetic; properties in `WithFlagSets` and `ClassifyPrimitive` |
| ParamType.WithFlag | src/MultiVersion/network/proto/v361/packets/v361AvailableCommandsPacket.php:391 | `$word \| $flag` for a one-bit flag; `WithFlagSets` proves it sets the flag and keeps the low 16 bits |
| ParamType.Low16 | src/MultiVersion/network/proto/v361/packets/v361AvailableCommandsPacket.php:196 | `$word & 0xffff`, the index field of a type word |
| ParamType.Classify | src/MultiVersion/network/proto/v361/packets/v361AvailableCommandsPacket.php:195-209 | the decoder's type tests in the source's order; properties in `ClassifyPrimitive`, `EnumBeforePostfix`, `ZeroIsInvalid`, `UnnamedCodeIsPrimitive` and `DecoderFacts.ParameterTypeChecks` |
| ParamType.EnumTypeWord | src/MultiVersion/network/proto/v361/packets/v361AvailableCommandsPacket.php:391 | `ENUM\|VALID\|index`; properties in `EnumTypeWordClassifies` and `EnumTypeWordOfMissing` |
| ParamType.PostfixTypeWord | src/MultiVersion/network/proto/v361/packets/v361AvailableCommandsPacket.php:397 | `POSTFIX\|key`; properties in `PostfixTypeWordClassifies` |
| ParamType.WithFlagSets | src/MultiVersion/network/proto/v361/packets/v361AvailableCommandsPacket.php:391-397 | OR-ing a flag into a word sets that flag and leaves the low 16 bits unchanged |
| ParamType.EnumTypeWordClassifies | src/MultiVersion/network/proto/v361/packets/v361AvailableCommandsPacket.php:391 | `ENUM\|VALID\|index` for a 16-bit index is `0x300000 + index` and decodes as a reference to enum `index` |
| ParamType.PostfixTypeWordClassifies | src/MultiVersion/network/proto/v361/packets/v361AvailableCommandsPacket.php:397 | `POSTFIX\|key` for a 16-bit key is `0x1000000 + key` and decodes as a reference to postfix `key` |
| ParamType.EnumTypeWordOfMissing | src/MultiVersion/network/proto/v361/packets/v361AvailableCommandsPacket.php:391 | when the enum name is missing, the lookup gives -1, and `ENUM\|VALID\|-1` is -1 |
| ParamType.ClassifyPrimitive | src/MultiVersion/network/proto/v361/packets/v361AvailableCommandsPacket.php:195-209 | a word is kept as a primitive exactly when VALID is set and ENUM and POSTFIX are clear |
| ParamType.EnumBeforePostfix | src/MultiVersion/network/proto/v361/packets/v361AvailableCommandsPacket.php:195-203 | ENUM is tested first: the word 0x1200005, with both ENUM and POSTFIX set, is read as enum 5 |
| ParamType.ZeroIsInvalid | src/MultiVersion/network/proto/v361/packets/v361AvailableCommandsPacket.php:207-208 | the word 0 (VALID clear) is refused |
| ParamType.UnnamedCodeIsPrimitive | src/MultiVersion/network/proto/v361/packets/v361AvailableCommandsPacket.php:207-211 | the low bits are not checked against the named primitive codes: VALID with code 0x07 is kept |
| Decoder.IndexWidth | src/MultiVersion/network/proto/v361/packets/v361AvailableCommandsPacket.php:160-168 | bytes of a value index by pool size; properties in `Encoder.IndexWidthBoundaries` |
| Decoder.ReadEnumValue | src/MultiVersion/network/proto/v361/packets/v361AvailableCommandsPacket.php:143-148 | one value of `getEnum`: an index looked up in the pool, failing outside it; properties in `DecoderFacts.ReadEnumValueChecks` and `DecoderFacts.IndexAtPoolSizeFails` |
| Decoder.DecodeEnum | src/MultiVersion/network/proto/v361/packets/v361AvailableCommandsPacket.php:136-152 | `getEnum`: a name, then a counted list of pooled values; properties in `DecoderFacts.EnumValuesFromPool` and `RoundTrip.EnumReadsBack` |
| Decoder.AliasOf | src/MultiVersion/network/proto/v361/packets/v361AvailableCommandsPacket.php:183 | `$enums[$index] ?? null`; properties in `DecoderFacts.AliasIsLenient` |
| Decoder.ResolveParameterType | src/MultiVersion/network/proto/v361/packets/v361AvailableCommandsPacket.php:195-209 | the type checks of one parameter; properties in `DecoderFacts.ParameterTypeChecks` |
| Decoder.DecodeParameter | src/MultiVersion/network/proto/v361/packets/v361AvailableCommandsPacket.php:189-211 | one parameter's fields, then its type checks; properties in `RoundTrip.ParameterReadsBack` |
| Decoder.DecodeCommand | src/MultiVersion/network/proto/v361/packets/v361AvailableCommandsPacket.php:178-216 | `getCommandData`; properties in `DecoderFacts.AliasIsLenient` and `RoundTrip.CommandReadsBack` |
| Decoder.DecodeSoftEnum | src/MultiVersion/network/proto/v361/packets/v361AvailableCommandsPacket.php:223-233 | `getSoftEnum`; properties in `RoundTrip.SoftEnumReadsBack` |
| Decoder.DecodeConstraint | src/MultiVersion/network/proto/v361/packets/v361AvailableCommandsPacket.php:243-265 | `getEnumConstraint`; properties in `DecoderFacts.ConstraintChecks`, `DecoderFacts.ConstraintOffsetExample` and `RoundTrip.ConstraintReadsBack` |
| Decoder.DecodeRest | src/MultiVersion/network/proto/v361/packets/v361AvailableCommandsPacket.php:116-126 | the commands, soft enums and constraints sections; properties in `DecodeSections` |
| Decoder.Decode | src/MultiVersion/network/proto/v361/packets/v361AvailableCommandsPacket.php:94-127 | `decodePayload`; properties in `DecodeSections` and `RoundTrip.DecodeEncode` |
| Decoder.ReadEnumValueIndex | src/MultiVersion/network/proto/v361/packets/v361AvailableCommandsPacket.php:160-168 | the index token read has 1, 2 or 4 bytes, as the pool size selects; the index is the unsigned byte or short, or the signed int; exactly one token is consumed |
| Decoder.HardcodedOf | src/MultiVersion/network/proto/v361/packets/v361AvailableCommandsPacket.php:57-59 | the hardcoded enums are exactly the table enums named in `HARDCODED_ENUM_NAMES` (only "CommandName") |
| Decoder.HardcodedOfSnoc | src/MultiVersion/network/proto/v361/packets/v361AvailableCommandsPacket.php:110-113 | reading one more table enum appends it to the hardcoded list exactly when its name is hardcoded |
| Decoder.IndexOf | src/MultiVersion/network/proto/v361/packets/v361AvailableCommandsPacket.php:254-257 | strict `array_search`: the first position holding the value, and failure exactly when the value is absent |
| Decoder.DecodeSections | src/MultiVersion/network/proto/v361/packets/v361AvailableCommandsPacket.php:94-127 | the payload is the six sections in order; the decoded packet collects the commands, the hardcoded enums of the table, the soft enums and the constraints |
| DecoderFacts.ReadEnumValueChecks | src/MultiVersion/network/proto/v361/packets/v361AvailableCommandsPacket.php:142-148 | an enum value decodes exactly when its index names a pool entry, and the value is that entry |
| DecoderFacts.IndexAtPoolSizeFails | src/MultiVersion/network/proto/v361/packets/v361AvailableCommandsPacket.php:143-146 | the index equal to the pool size, written with the pool's width, aborts decoding |
| DecoderFacts.EnumValuesFromPool | src/MultiVersion/network/proto/v361/packets/v361AvailableCommandsPacket.php:136-151 | every value of a decoded enum is a pool entry |
| DecoderFacts.AliasIsLenient | src/MultiVersion/network/proto/v361/packets/v361AvailableCommandsPacket.php:179-186 | whatever the signed alias word holds, a command decodes exactly when its overloads do; the alias is the table enum at that position, and null for every other word |
| DecoderFacts.ParameterTypeChecks | src/MultiVersion/network/proto/v361/packets/v361AvailableCommandsPacket.php:195-209 | the checks run in order: ENUM, where the low 16 bits must index the table; then POSTFIX, where they must index the pool; then VALID clear fails; anything else keeps the raw word |
| DecoderFacts.ConstraintChecks | src/MultiVersion/network/proto/v361/packets/v361AvailableCommandsPacket.php:245-264 | a constraint decodes exactly when the value index is in the pool, the enum index is in the table, the value is among that enum's values and the ids read; the offset is the value's first position in the enum's own list |
| DecoderFacts.ConstraintOffsetExample | src/MultiVersion/network/proto/v361/packets/v361AvailableCommandsPacket.php:253-254 | with the pool ["hard", "easy"] and the enum "mode" = ["easy", "hard"], value index 0 ("hard") gives offset 1, its position in the enum, not its pool position 0 |
| Encoder.EncodeEnum | src/MultiVersion/network/proto/v361/packets/v361AvailableCommandsPacket.php:341-354 | `putEnum`; properties in `EncodeEnumSome`, `EnumsEncodable` and `RoundTrip.EnumReadsBack` |
| Encoder.ParameterTypeWord | src/MultiVersion/network/proto/v361/packets/v361AvailableCommandsPacket.php:390-400 | the type word `putCommandData` writes; properties in `ParameterTypeWordSome` and `RoundTrip.ParameterReadsBack` |
| Encoder.EncodeParameter | src/MultiVersion/network/proto/v361/packets/v361AvailableCommandsPacket.php:388-404 | one parameter's tokens; properties in `RoundTrip.ParameterReadsBack` |
| Encoder.AliasIndex | src/MultiVersion/network/proto/v361/packets/v361AvailableCommandsPacket.php:378-382 | the alias index or -1; properties in `RoundTrip.AliasReadsBack` |
| Encoder.EncodeCommand | src/MultiVersion/network/proto/v361/packets/v361AvailableCommandsPacket.php:372-407 | `putCommandData`; properties in `CommandsEncodable` and `RoundTrip.CommandReadsBack` |
| Encoder.EncodeSoftEnum | src/MultiVersion/network/proto/v361/packets/v361AvailableCommandsPacket.php:409-417 | `putSoftEnum`; properties in `SoftEnumsEncodable` and `RoundTrip.SoftEnumReadsBack` |
| Encoder.EncodeConstraint | src/MultiVersion/network/proto/v361/packets/v361AvailableCommandsPacket.php:425-432 | `putEnumConstraint`; properties in `ConstraintsEncodable` and `RoundTrip.ConstraintReadsBack` |
| Encoder.Encode | src/MultiVersion/network/proto/v361/packets/v361AvailableCommandsPacket.php:267-334 | `encodePayload`; properties in `EncodeSome`, `RoundTrip.DecodeEncode` and `Reencode.ReencodeReorders` |
| Encoder.EncodeEnumValueIndex | src/MultiVersion/network/proto/v361/packets/v361AvailableCommandsPacket.php:356-364 | the index is written with the width the decoder expects for the same pool size |
| Encoder.IndexWidthBoundaries | src/MultiVersion/network/proto/v361/packets/v361AvailableCommandsPacket.php:160-168 | the width is 1 up to 255 values, 2 from 256 to 65535, and 4 from 65536 |
| Encoder.EnumValueIndexRoundTrip | src/MultiVersion/network/proto/v361/packets/v361AvailableCommandsPacket.php:356-364 | an index into the pool, written with the pool's width, reads back as itself |
| Encoder.EncodeEnumSome | src/MultiVersion/network/proto/v361/packets/v361AvailableCommandsPacket.php:347-351 | `putEnum` fails exactly when one of the enum's values is missing from the pool map |
| Encoder.ParameterTypeWordSome | src/MultiVersion/network/proto/v361/packets/v361AvailableCommandsPacket.php:390-400 | the type word fails exactly when the parameter has no enum and has a postfix missing from the postfix map |
| Encoder.EnumsEncodable | src/MultiVersion/network/proto/v361/packets/v361AvailableCommandsPacket.php:315-318 | with consistent tables, as the pass builds them, every table enum writes: the `putEnum` failure cannot happen |
| Encoder.CommandsEncodable | src/MultiVersion/network/proto/v361/packets/v361AvailableCommandsPacket.php:320-323 | the commands write when every postfix their parameters use has an index; enums and aliases never make them fail |
| Encoder.SoftEnumsEncodable | src/MultiVersion/network/proto/v361/packets/v361AvailableCommandsPacket.php:325-328 | soft enums always write |
| Encoder.ConstraintsEncodable | src/MultiVersion/network/proto/v361/packets/v361AvailableCommandsPacket.php:330-333 | the constraints write exactly when each one's value and enum name are registered |
| Encoder.EncodeSome | src/MultiVersion/network/proto/v361/packets/v361AvailableCommandsPacket.php:267-334 | encoding fails exactly when a constraint's value or enum name was not registered by the pass |
| Prepass.IndexMap.Add | src/MultiVersion/network/proto/v361/packets/v361AvailableCommandsPacket.php:282 | `$m[$k] = $m[$k] ?? count($m)`; properties in `AddValid` and `IndexIsPosition` |
| Prepass.IndexMap.AddAll | src/MultiVersion/network/proto/v361/packets/v361AvailableCommandsPacket.php:281-283 | the value loop of `$addEnumFn`; properties in `AddAllSpec` |
| Prepass.RegisterName | src/MultiVersion/network/proto/v361/packets/v361AvailableCommandsPacket.php:278-280 | the first half of `$addEnumFn`; properties in `RegisterNameStep` |
| Prepass.AddEnum | src/MultiVersion/network/proto/v361/packets/v361AvailableCommandsPacket.php:277-284 | `$addEnumFn`; properties in `AddEnumStep` |
| Prepass.AddParameter | src/MultiVersion/network/proto/v361/packets/v361AvailableCommandsPacket.php:294-300 | a parameter's enum, then its postfix; properties in `BuildVisits` |
| Prepass.AddCommand | src/MultiVersion/network/proto/v361/packets/v361AvailableCommandsPacket.php:289-302 | a command's alias enum, then its overloads; properties in `BuildVisits` |
| Prepass.Build | src/MultiVersion/network/proto/v361/packets/v361AvailableCommandsPacket.php:285-303 | the whole pass; properties in `BuildVisits`, `BuildSpec`, `VisitedInTables` and `TableEntry` |
| Prepass.AddAllSpec | src/MultiVersion/network/proto/v361/packets/v361AvailableCommandsPacket.php:281-283 | the value loop keeps the map consistent, appends the new values in first-occurrence order, and holds exactly the old keys plus the values |
| Prepass.AddValid | src/MultiVersion/network/proto/v361/packets/v361AvailableCommandsPacket.php:299 | `$m[$k] ?? count($m)` gives a new key the next index and leaves a known key alone |
| Prepass.IndexIsPosition | src/MultiVersion/network/proto/v361/packets/v361AvailableCommandsPacket.php:305-313 | the index stored for a key is its position in the emitted order |
| Prepass.RegisterNameStep | src/MultiVersion/network/proto/v361/packets/v361AvailableCommandsPacket.php:278-280 | registering a name keeps `$enums` in step with `$enumIndexes` and adds the first enum of each name |
| Prepass.AddEnumStep | src/MultiVersion/network/proto/v361/packets/v361AvailableCommandsPacket.php:277-284 | one `$addEnumFn` call extends the description of the tables by that enum |
| Prepass.BuildVisits | src/MultiVersion/network/proto/v361/packets/v361AvailableCommandsPacket.php:285-303 | the nested loops visit the hardcoded enums, then each command's aliases and each parameter's enum and postfix, in encounter order |
| Prepass.BuildSpec | src/MultiVersion/network/proto/v361/packets/v361AvailableCommandsPacket.php:277-303 | the pass gives: the first enum of each name among the visits; the first occurrence of each visited value; the first occurrence of each visited postfix; all in visiting order |
| Prepass.Visited | src/MultiVersion/network/proto/v361/packets/v361AvailableCommandsPacket.php:285-303 | every hardcoded enum, alias enum, parameter enum and parameter postfix is visited |
| Prepass.VisitedInTables | src/MultiVersion/network/proto/v361/packets/v361AvailableCommandsPacket.php:277-303 | after the pass, every visited enum's name, each of its values and every visited postfix has an index |
| Prepass.TableEntry | src/MultiVersion/network/proto/v361/packets/v361AvailableCommandsPacket.php:278-279 | with unique enum names, the table entry stored under a visited enum's name is that enum |
| RoundTrip.EnumReadsBack | src/MultiVersion/network/proto/v361/packets/v361AvailableCommandsPacket.php:341-354 | a table enum written by `putEnum` reads back as itself through `getEnum` |
| RoundTrip.SoftEnumReadsBack | src/MultiVersion/network/proto/v361/packets/v361AvailableCommandsPacket.php:409-417 | a soft enum reads back verbatim, with no pooling |
| RoundTrip.ParameterReadsBack | src/MultiVersion/network/proto/v361/packets/v361AvailableCommandsPacket.php:388-404 | a parameter reads back with its enum or postfix restored from the written type word |
| RoundTrip.AliasReadsBack | src/MultiVersion/network/proto/v361/packets/v361AvailableCommandsPacket.php:378-382 | the written alias index reads back as the alias enum, or as none |
| RoundTrip.CommandReadsBack | src/MultiVersion/network/proto/v361/packets/v361AvailableCommandsPacket.php:372-407 | a command reads back with the same header, alias and overloads in order |
| RoundTrip.ConstraintReadsBack | src/MultiVersion/network/proto/v361/packets/v361AvailableCommandsPacket.php:425-432 | a constraint reads back with the same enum and ids, and its offset at the value's first position |
| RoundTrip.EnumSectionReadsBack | src/MultiVersion/network/proto/v361/packets/v361AvailableCommandsPacket.php:315-318 | the written enum table reads back as the pass's table |
| RoundTrip.CommandSectionReadsBack | src/MultiVersion/network/proto/v361/packets/v361AvailableCommandsPacket.php:320-323 | the written commands read back in canonical form, in order |
| RoundTrip.SoftEnumSectionReadsBack | src/MultiVersion/network/proto/v361/packets/v361AvailableCommandsPacket.php:325-328 | the soft enums read back verbatim |
| RoundTrip.ConstraintSectionReadsBack | src/MultiVersion/network/proto/v361/packets/v361AvailableCommandsPacket.php:330-333 | the constraints read back in canonical form, in order |
| RoundTrip.DecodeEncode | src/MultiVersion/network/proto/v361/packets/v361AvailableCommandsPacket.php:267-334 | a well-formed packet encodes, and decoding the result gives it back in canonical form, leaving what followed unread; `hardcodedEnums` come back as exactly the "CommandName" enums |
| Reencode.FirstPooledValue | src/MultiVersion/network/proto/v361/packets/v361AvailableCommandsPacket.php:305-308 | the first string an encoded payload holds is the first value the pass pooled |
| Reencode.ReencodeReorders | src/MultiVersion/network/proto/v361/packets/v361AvailableCommandsPacket.php:285-303 | a well-formed packet whose `CommandName` enum is reached only through a parameter, after an alias enum: decoding its encoding hardcodes `CommandName`, the next pass visits it first, and the second encoding writes a different value pool |
| Packet.AvailableCommandsPacket.constructor | src/MultiVersion/network/proto/v361/packets/v361AvailableCommandsPacket.php:65-85 | a new packet has four empty lists |
| Packet.AvailableCommandsPacket.GetEnumValueIndex | src/MultiVersion/network/proto/v361/packets/v361AvailableCommandsPacket.php:160-168 | reads what `ReadEnumValueIndex` reads and advances the cursor past it |
| Packet.AvailableCommandsPacket.GetEnum | src/MultiVersion/network/proto/v361/packets/v361AvailableCommandsPacket.php:136-152 | the loop reads what `DecodeEnum` reads, failing on an index outside the pool |
| Packet.AvailableCommandsPacket.GetParameter | src/MultiVersion/network/proto/v361/packets/v361AvailableCommandsPacket.php:189-211 | one parameter with its type checks, as `DecodeParameter` |
| Packet.AvailableCommandsPacket.GetOverload | src/MultiVersion/network/proto/v361/packets/v361AvailableCommandsPacket.php:188-212 | the inner loop reads the counted list of parameters |
| Packet.AvailableCommandsPacket.GetCommandData | src/MultiVersion/network/proto/v361/packets/v361AvailableCommandsPacket.php:178-216 | header, lenient alias and the nested overload loops, as `DecodeCommand` |
| Packet.AvailableCommandsPacket.GetSoftEnum | src/MultiVersion/network/proto/v361/packets/v361AvailableCommandsPacket.php:223-233 | a name and a counted list of plain strings, as `DecodeSoftEnum` |
| Packet.AvailableCommandsPacket.GetConstraintIds | src/MultiVersion/network/proto/v361/packets/v361AvailableCommandsPacket.php:259-262 | the counted list of constraint-id bytes |
| Packet.AvailableCommandsPacket.GetEnumConstraint | src/MultiVersion/network/proto/v361/packets/v361AvailableCommandsPacket.php:243-265 | both index checks, the first-position offset and the ids, as `DecodeConstraint` |
| Packet.AvailableCommandsPacket.GetStringList | src/MultiVersion/network/proto/v361/packets/v361AvailableCommandsPacket.php:96-105 | a pool: a count, then that many strings |
| Packet.AvailableCommandsPacket.GetEnumTable | src/MultiVersion/network/proto/v361/packets/v361AvailableCommandsPacket.php:107-114 | reads the enum table and appends exactly its hardcoded enums, in table order, to `hardcodedEnums` |
| Packet.AvailableCommandsPacket.GetCommands | src/MultiVersion/network/proto/v361/packets/v361AvailableCommandsPacket.php:116-118 | reads the commands and appends them to `commandData` |
| Packet.AvailableCommandsPacket.GetSoftEnums | src/MultiVersion/network/proto/v361/packets/v361AvailableCommandsPacket.php:120-122 | reads the soft enums and appends them to `softEnums` |
| Packet.AvailableCommandsPacket.GetConstraints | src/MultiVersion/network/proto/v361/packets/v361AvailableCommandsPacket.php:124-126 | reads the constraints and appends them to `enumConstraints` |
| Packet.AvailableCommandsPacket.GetRest | src/MultiVersion/network/proto/v361/packets/v361AvailableCommandsPacket.php:116-126 | the last three sections succeed exactly when `DecodeRest` does, each appended to its field |
| Packet.AvailableCommandsPacket.DecodePayload | src/MultiVersion/network/proto/v361/packets/v361AvailableCommandsPacket.php:94-127 | succeeds exactly when `Decode` accepts the input; then each field has gained the decoded list and the cursor stands after the payload |
| Packet.AvailableCommandsPacket.AddEnumFn | src/MultiVersion/network/proto/v361/packets/v361AvailableCommandsPacket.php:277-284 | the closure's effect on the tables equals `AddEnum` |
| Packet.AvailableCommandsPacket.AddParametersFn | src/MultiVersion/network/proto/v361/packets/v361AvailableCommandsPacket.php:293-301 | the parameter loop equals `AddParameters` |
| Packet.AvailableCommandsPacket.AddCommandFn | src/MultiVersion/network/proto/v361/packets/v361AvailableCommandsPacket.php:289-302 | the alias, then the overload loops, equal `AddCommand` |
| Packet.AvailableCommandsPacket.BuildTables | src/MultiVersion/network/proto/v361/packets/v361AvailableCommandsPacket.php:268-303 | the whole pass over the packet's fields equals `Build` |
| Packet.AvailableCommandsPacket.PutEnumValueIndex | src/MultiVersion/network/proto/v361/packets/v361AvailableCommandsPacket.php:356-364 | appends the one index token of `EncodeEnumValueIndex` |
| Packet.AvailableCommandsPacket.PutEnum | src/MultiVersion/network/proto/v361/packets/v361AvailableCommandsPacket.php:341-354 | writes exactly when `EncodeEnum` succeeds, appending its tokens |
| Packet.AvailableCommandsPacket.PutParameter | src/MultiVersion/network/proto/v361/packets/v361AvailableCommandsPacket.php:388-404 | writes exactly when `EncodeParameter` succeeds, appending its tokens |
| Packet.AvailableCommandsPacket.PutOverload | src/MultiVersion/network/proto/v361/packets/v361AvailableCommandsPacket.php:386-405 | the parameter loop of one overload |
| Packet.AvailableCommandsPacket.PutOverloads | src/MultiVersion/network/proto/v361/packets/v361AvailableCommandsPacket.php:384-406 | the counted list of overloads |
| Packet.AvailableCommandsPacket.PutCommandHeader | src/MultiVersion/network/proto/v361/packets/v361AvailableCommandsPacket.php:373-382 | name, description, flags, permission and the alias index, or -1 |
| Packet.AvailableCommandsPacket.PutCommandData | src/MultiVersion/network/proto/v361/packets/v361AvailableCommandsPacket.php:372-407 | writes exactly when `EncodeCommand` succeeds, appending its tokens |
| Packet.AvailableCommandsPacket.PutStringList | src/MultiVersion/network/proto/v361/packets/v361AvailableCommandsPacket.php:305-313 | a pool: the count, then each string |
| Packet.AvailableCommandsPacket.PutSoftEnum | src/MultiVersion/network/proto/v361/packets/v361AvailableCommandsPacket.php:409-417 | the name, then the values as plain strings |
| Packet.AvailableCommandsPacket.PutEnumConstraint | src/MultiVersion/network/proto/v361/packets/v361AvailableCommandsPacket.php:425-432 | writes exactly when `EncodeConstraint` succeeds, appending its tokens |
| Packet.AvailableCommandsPacket.PutEnums | src/MultiVersion/network/proto/v361/packets/v361AvailableCommandsPacket.php:315-318 | the enum table section |
| Packet.AvailableCommandsPacket.PutCommands | src/MultiVersion/network/proto/v361/packets/v361AvailableCommandsPacket.php:320-323 | the command section |
| Packet.AvailableCommandsPacket.PutSoftEnums | src/MultiVersion/network/proto/v361/packets/v361AvailableCommandsPacket.php:325-328 | the soft-enum section, which never fails |
| Packet.AvailableCommandsPacket.PutConstraints | src/MultiVersion/network/proto/v361/packets/v361AvailableCommandsPacket.php:330-333 | the constraint section |
| Packet.AvailableCommandsPacket.EncodePayload | src/MultiVersion/network/proto/v361/packets/v361AvailableCommandsPacket.php:267-334 | writes exactly when `Encode` succeeds on the packet's fields, appending exactly `Encode`'s tokens |

The `Packet` methods are each tied to a function by their `ensures`. What the
source promises is proved about those functions, in the `DecoderFacts`,
`Encoder`, `Prepass` and `RoundTrip` rows.

"Well-formed" (`RoundTrip.WellFormed`) means all of the following:
- enum names are unique among the enums the pass visits;
- the tables fit their index widths;
- flags, permissions and constraint ids are bytes;
- a parameter with neither enum nor postfix carries a word that decodes as a primitive;
- every constraint refers to a visited enum and to a valid offset in it.

"Canonical form" (`RoundTrip.Canonical`) differs from the packet in four ways:
- a parameter's type word becomes the word the encoder wrote;
- a parameter with both an enum and a postfix loses the postfix, since the encoder writes only the enum reference for it (lines 390-393);
- `hardcodedEnums` becomes the "CommandName" enums of the enum table;
- a constraint's offset moves to the first position of its value.

Encoding and decoding are functions, so both are deterministic.

Re-encoding a decoded packet does not always give back the same payload
(`Reencode.ReencodeReorders`). Decoding files every `CommandName` enum of the
table under `hardcodedEnums`, and the next pass visits `hardcodedEnums` before
the commands. So a `CommandName` enum that the first pass reached only through
a command moves to the front of the enum table, and its values to the front
of the value pool. The code behaves this way as written; the model follows it.

## Left out

- Serializer primitives are one token each: `getUnsignedVarInt`, `getString`, `getByte`, `getLShort`, `getLInt`, `getBool` and their `put` counterparts. Their byte encodings (varints, length-prefixed strings) belong to the protocol library and are not part of this model. `put` truncates as a fixed-width write does (`% 0x100`, `% 0x1_0000_0000`). `getLInt` gives the signed value.
- All exceptions are one failure outcome, `None` or `false`. This covers `PacketDecodeException`, the foreign `InvalidStateException` and the missing-key case of `putEnumConstraint`.
- Packet.AvailableCommandsPacket.DecodePayload: says nothing about the fields or the cursor after a failed decode. The source leaves whatever was appended before the throw. The model appends a section to its field once the whole section has been read, rather than record by record; the two differ only after a failure.
- Packet.AvailableCommandsPacket.EncodePayload: says nothing about the output after a failed encode, for the same reason.
- Encoder.EncodeConstraint: a constraint whose offset lies outside its enum has no affected value and is a failure. The library's `CommandEnumConstraint` constructor rejects such offsets, and that constructor is not part of this model.
- Enums and parameters are values, not shared objects. The pass keys enums by name, as the source does, so object identity plays no part.
- PHP's casting of numeric-string array keys to integers is not modelled. Keys are strings throughout.
- `fromLatest` (a field copy) and the unused debug formatter `argTypeToString` are not modelled.
- The v486 serializer factory, packet framing and protocol selection are not part of this model.
- RoundTrip.DecodeEncode: the round trip is proved for well-formed packets, in the decode-after-encode direction only. Encoding a decoded payload does not in general give back the same tokens, so no such lemma is stated: `Reencode.ReencodeReorders` shows a well-formed packet whose second encoding writes its value pool in another order, because the decoded `CommandName` enum is visited first by the next pass. A parameter with both an enum and a postfix also loses its postfix in the first round, which can shrink the postfix pool of the second encoding.
