/**
 * The in-memory side of the AvailableCommands packet: commands, their
 * parameters and the enums they refer to. Objects the packet shares by
 * reference (one enum used by several parameters) are plain values here.
 */
module Commands {
  import opened Wrappers

  /** A named list of values; hardcoded, soft and table enums all have this shape. */
  datatype CommandEnum = CommandEnum(name: string, values: seq<string>)

  /**
   * One parameter of an overload. `paramType` is the raw 32-bit type word
   * (as the PHP int `getLInt` returns); at most one of `enum` and `postfix`
   * is set by the decoder, and the encoder gives `enum` priority.
   */
  datatype CommandParameter = CommandParameter(
    paramName: string,
    paramType: int,
    isOptional: bool,
    flags: int,
    enum: Option<CommandEnum>,
    postfix: Option<string>)

  /** A command: its header, its alias enum and its overloads (each a list of parameters). */
  datatype CommandData = CommandData(
    name: string,
    description: string,
    flags: int,
    permission: int,
    aliases: Option<CommandEnum>,
    overloads: seq<seq<CommandParameter>>)

  /** Constraint ids attached to the value at `valueOffset` of `enum`'s own value list. */
  datatype CommandEnumConstraint = CommandEnumConstraint(enum: CommandEnum, valueOffset: int, constraints: seq<int>) {
    /** The constrained value; `None` for an offset outside the enum's values. */
    function AffectedValue(): Option<string> {
      if 0 <= valueOffset < |enum.values| then Some(enum.values[valueOffset]) else None
    }
  }

  /** The four public fields of the packet. */
  datatype PacketModel = PacketModel(
    commandData: seq<CommandData>,
    hardcodedEnums: seq<CommandEnum>,
    softEnums: seq<CommandEnum>,
    enumConstraints: seq<CommandEnumConstraint>)

  /** Names of the enums that no vanilla command references but the client needs. */
  const HARDCODED_ENUM_NAMES: set<string> := {"CommandName"}

  predicate IsHardcoded(e: CommandEnum) {
    e.name in HARDCODED_ENUM_NAMES
  }
}
