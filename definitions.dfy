/**
 * The definition objects the reader builds: primitive definitions (boolean,
 * character, integer), structure definitions and their members, and the errors
 * reading can end in.
 */
module Definitions {
  import opened Values

  /**
   * An attribute the reader either assigned or left at whatever the definition
   * class's constructor gave it.
   */
  datatype Field = ClassDefault | Assigned(value: Value)

  /** What every definition is constructed with: its name and the optional aliases, description and urls. */
  datatype Common = Common(name: Value, aliases: Value, description: Value, urls: Value)

  /** The `size` and `units` attributes of a primitive definition. */
  datatype Layout = Layout(size: Field, units: Field)

  /** A plain structure member, or a member whose fields come from a nested `sequence` dictionary. */
  datatype MemberShape = PlainMember | SequenceMember

  /** A structure member as constructed: name, aliases, data type and description. */
  datatype Member = Member(shape: MemberShape, name: Value, aliases: Value, dataType: Value, description: Value)

  /** A data type definition of one of the four kinds the reader supports. */
  datatype Definition =
    | Boolean(common: Common, layout: Layout)
    | Character(common: Common, layout: Layout)
    | Integer(common: Common, layout: Layout, format: Field)
    | Structure(common: Common, members: seq<Member>)
  {
    /** The definition's name, the key a registry files it under. */
    function Name(): Value {
      common.name
    }

    /** The type indicator a document gives for a definition of this kind. */
    function TypeIndicator(): string {
      match this
      case Boolean(_, _) => "boolean"
      case Character(_, _) => "character"
      case Integer(_, _, _) => "integer"
      case Structure(_, _) => "structure"
    }
  }

  /** How reading one document or one member ends when it does not yield a value. */
  datatype ReadError =
    | FormatError(message: string)  // the reader's own `errors.FormatError`
    | Raised(fault: Fault)          // any other exception, which no caller in the reader catches
}
