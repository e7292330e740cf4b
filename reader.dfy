/**
 * The data type definitions reader: validates one definition document, picks the
 * reader for its type indicator from a fixed table and builds the definition.
 * The registry argument the source threads through every reader is unused here:
 * the only use it has, linking members to the registry, is not part of the model.
 */
module DefinitionReader {
  import opened Results
  import opened Values
  import opened Definitions

  type ReadResult<T> = Result<T, ReadError>

  const MissingValuesMessage := "Missing definition values."
  const MissingNameMessage := "Invalid definition missing name."
  const MissingTypeMessage := "Invalid definition missing type."
  const MissingMemberKindMessage := "Invalid structure attribute definition missing name, sequence or union."

  /** The message for a type indicator without a reader (its spelling is the source's). */
  function UnsupportedMessage(typeIndicator: string): string {
    "Unuspported data type definition: " + typeIndicator + "."
  }

  /** The readers a type indicator can select. */
  datatype Callback = ReadBoolean | ReadCharacter | ReadInteger | ReadStructure

  /** The fixed table from type indicator to reader. */
  const DataTypeCallbacks: map<string, Callback> := map[
    "boolean" := ReadBoolean,
    "character" := ReadCharacter,
    "integer" := ReadInteger,
    "structure" := ReadStructure
  ]

  /** The definition class a primitive read constructs. */
  datatype PrimitiveClass = BooleanClass | CharacterClass | IntegerClass

  /** A freshly constructed primitive definition (an integer's format keeps its class default). */
  function Construct(cls: PrimitiveClass, common: Common, layout: Layout): Definition {
    match cls
    case BooleanClass => Boolean(common, layout)
    case CharacterClass => Character(common, layout)
    case IntegerClass => Integer(common, layout, ClassDefault)
  }

  /** The constructor arguments every reader takes from the document: aliases, description and urls. */
  function ReadCommon(values: seq<(Value, Value)>, name: Value): Common {
    Common(name, Get(values, "aliases"), Get(values, "description"), Get(values, "urls"))
  }

  /**
   * Reads a primitive definition. Only a truthy `attributes` sets `size` (None
   * when absent) and `units` (`bytes` when absent); a truthy `attributes` that is
   * not a dictionary raises. Nothing checks the type or range of `size`.
   */
  function ReadPrimitiveDataTypeDefinition(values: seq<(Value, Value)>, cls: PrimitiveClass, name: Value)
    : (r: ReadResult<Definition>)
    ensures var attributes := Get(values, "attributes");
      && (r.Err? <==> Truthy(attributes) && !attributes.Dict?)
      && (r.Err? ==> r.error == Raised(AttributeError))
      && (r.Ok? ==> r.value.common == Common(name, Get(values, "aliases"), Get(values, "description"), Get(values, "urls")))
      && (r.Ok? && !Truthy(attributes) ==> r.value == Construct(cls, r.value.common, Layout(ClassDefault, ClassDefault)))
      && (r.Ok? && Truthy(attributes) ==>
            r.value == Construct(cls, r.value.common,
              Layout(Assigned(Get(attributes.entries, "size")), Assigned(GetOr(attributes.entries, "units", Str("bytes"))))))
  {
    var common := ReadCommon(values, name);
    var attributes := Get(values, "attributes");
    if !Truthy(attributes) then
      Ok(Construct(cls, common, Layout(ClassDefault, ClassDefault)))
    else if !attributes.Dict? then
      Err(Raised(AttributeError))
    else
      Ok(Construct(cls, common,
        Layout(Assigned(Get(attributes.entries, "size")), Assigned(GetOr(attributes.entries, "units", Str("bytes"))))))
  }

  /** Reads a boolean definition: the primitive read with the boolean class. */
  function ReadBooleanDataTypeDefinition(values: seq<(Value, Value)>, name: Value): (r: ReadResult<Definition>)
    ensures r.Ok? ==> r.value.Boolean?
  {
    ReadPrimitiveDataTypeDefinition(values, BooleanClass, name)
  }

  /** Reads a character definition: the primitive read with the character class. */
  function ReadCharacterDataTypeDefinition(values: seq<(Value, Value)>, name: Value): (r: ReadResult<Definition>)
    ensures r.Ok? ==> r.value.Character?
  {
    ReadPrimitiveDataTypeDefinition(values, CharacterClass, name)
  }

  /**
   * Reads an integer definition: the primitive read, then, when `attributes` is
   * truthy, `format` from it (None when absent); otherwise `format` keeps its
   * class default.
   */
  function ReadIntegerDataTypeDefinition(values: seq<(Value, Value)>, name: Value): (r: ReadResult<Definition>)
    ensures r.Ok? ==> r.value.Integer?
    ensures var attributes := Get(values, "attributes");
      && (r.Err? <==> ReadPrimitiveDataTypeDefinition(values, IntegerClass, name).Err?)
      && (r.Ok? ==> r.value.common == ReadPrimitiveDataTypeDefinition(values, IntegerClass, name).value.common)
      && (r.Ok? ==> r.value.layout == ReadPrimitiveDataTypeDefinition(values, IntegerClass, name).value.layout)
      && (r.Ok? ==> r.value.format == if Truthy(attributes) then Assigned(Get(attributes.entries, "format")) else ClassDefault)
  {
    var definition :- ReadPrimitiveDataTypeDefinition(values, IntegerClass, name);
    var attributes := Get(values, "attributes");
    if Truthy(attributes) then
      Ok(definition.(format := Assigned(Get(attributes.entries, "format"))))
    else
      Ok(definition)
  }

  /**
   * Reads one structure member. An empty entry, or one whose `name`, `sequence`
   * and `union` are all falsy, is a format error. A truthy `sequence` wins: the
   * member's fields then come from that nested dictionary (its name unchecked).
   * The union branch is unimplemented in the source and reads variables no branch
   * has assigned, so it always raises.
   */
  function ReadStructureDataTypeDefinitionMember(entry: Value): (r: ReadResult<Member>)
    ensures r == Err(FormatError(MissingValuesMessage)) <==> !Truthy(entry)
    ensures Truthy(entry) && !entry.Dict? ==> r == Err(Raised(AttributeError))
    ensures r == Err(FormatError(MissingMemberKindMessage)) <==>
      (Truthy(entry) && entry.Dict? &&
        !Truthy(Get(entry.entries, "name")) && !Truthy(Get(entry.entries, "sequence")) && !Truthy(Get(entry.entries, "union")))
    ensures r == Err(Raised(UnboundLocalError)) <==>
      (entry.Dict? && !Truthy(Get(entry.entries, "sequence")) && Truthy(Get(entry.entries, "union")))
    ensures Truthy(entry) && entry.Dict? && Truthy(Get(entry.entries, "sequence")) ==>
      (r.Ok? <==> Get(entry.entries, "sequence").Dict?) && (r.Err? ==> r.error == Raised(AttributeError))
    ensures (Truthy(entry) && entry.Dict? && Truthy(Get(entry.entries, "name")) &&
             !Truthy(Get(entry.entries, "sequence")) && !Truthy(Get(entry.entries, "union"))) ==> r.Ok?
    ensures r.Ok? ==> entry.Dict? && (r.value.shape == SequenceMember <==> Truthy(Get(entry.entries, "sequence")))
    ensures r.Ok? && r.value.shape == SequenceMember ==>
      && Get(entry.entries, "sequence").Dict?
      && var fields := Get(entry.entries, "sequence").entries;
         r.value == Member(SequenceMember, Get(fields, "name"), Get(fields, "aliases"), Get(fields, "data_type"), Get(fields, "description"))
    ensures r.Ok? && r.value.shape == PlainMember ==>
      && Truthy(r.value.name)
      && r.value == Member(PlainMember, Get(entry.entries, "name"), Get(entry.entries, "aliases"),
                           Get(entry.entries, "data_type"), Get(entry.entries, "description"))
  {
    if !Truthy(entry) then
      Err(FormatError(MissingValuesMessage))
    else if !entry.Dict? then
      Err(Raised(AttributeError))
    else
      var name := Get(entry.entries, "name");
      var sequence := Get(entry.entries, "sequence");
      var union := Get(entry.entries, "union");
      if !Truthy(name) && !Truthy(sequence) && !Truthy(union) then
        Err(FormatError(MissingMemberKindMessage))
      else if Truthy(sequence) then
        if !sequence.Dict? then
          Err(Raised(AttributeError))
        else
          var fields := sequence.entries;
          Ok(Member(SequenceMember, Get(fields, "name"), Get(fields, "aliases"), Get(fields, "data_type"), Get(fields, "description")))
      else if Truthy(union) then
        Err(Raised(UnboundLocalError))
      else
        Ok(Member(PlainMember, name, Get(entry.entries, "aliases"), Get(entry.entries, "data_type"), Get(entry.entries, "description")))
  }

  /**
   * Reads the member entries in order, stopping at the first one that fails:
   * one member per entry, each the member that entry reads as.
   */
  function ReadEachMember(entries: seq<Value>): (r: ReadResult<seq<Member>>)
    ensures r.Ok? <==> forall i :: 0 <= i < |entries| ==> ReadStructureDataTypeDefinitionMember(entries[i]).Ok?
    ensures r.Ok? ==> (|r.value| == |entries| &&
      forall i :: 0 <= i < |entries| ==> r.value[i] == ReadStructureDataTypeDefinitionMember(entries[i]).value)
    ensures r.Err? ==>
      exists k :: 0 <= k < |entries| && ReadStructureDataTypeDefinitionMember(entries[k]) == Err(r.error) &&
        forall i :: 0 <= i < k ==> ReadStructureDataTypeDefinitionMember(entries[i]).Ok?
  {
    if entries == [] then
      Ok([])
    else
      var member :- ReadStructureDataTypeDefinitionMember(entries[0]);
      var rest := ReadEachMember(entries[1..]);
      assert forall i :: 1 <= i < |entries| ==> entries[i] == entries[1..][i - 1];
      if rest.Err? then
        ghost var k :| 0 <= k < |entries[1..]| && ReadStructureDataTypeDefinitionMember(entries[1..][k]) == Err(rest.error) &&
          forall i :: 0 <= i < k ==> ReadStructureDataTypeDefinitionMember(entries[1..][i]).Ok?;
        assert ReadStructureDataTypeDefinitionMember(entries[k + 1]) == Err(rest.error);
        Err(rest.error)
      else
        Ok([member] + rest.value)
  }

  /** Reading the entries fails with exactly the error of the first entry that fails. */
  lemma {:induction false} ReadEachMemberStopsAtFirstFailure(entries: seq<Value>, k: nat)
    requires k < |entries| && ReadStructureDataTypeDefinitionMember(entries[k]).Err?
    requires forall i :: 0 <= i < k ==> ReadStructureDataTypeDefinitionMember(entries[i]).Ok?
    ensures ReadEachMember(entries) == Err(ReadStructureDataTypeDefinitionMember(entries[k]).error)
  {
    if k > 0 {
      assert forall i :: 1 <= i < |entries| ==> entries[i] == entries[1..][i - 1];
      ReadEachMemberStopsAtFirstFailure(entries[1..], k - 1);
    }
  }

  /**
   * What reading a truthy `members` value gives: every value it iterates over,
   * read as a member, in iteration order; a value that cannot be iterated raises.
   */
  function ReadMembers(members: Value): (r: ReadResult<seq<Member>>)
    ensures Iterate(members).Err? ==> r == Err(Raised(TypeError))
    ensures Iterate(members).Ok? ==>
      var entries := Iterate(members).value;
      && (r.Ok? <==> forall i :: 0 <= i < |entries| ==> ReadStructureDataTypeDefinitionMember(entries[i]).Ok?)
      && (r.Ok? ==> |r.value| == |entries|)
      && (r.Ok? ==> forall i :: 0 <= i < |entries| ==> ReadStructureDataTypeDefinitionMember(entries[i]) == Ok(r.value[i]))
      && (r.Err? ==>
            exists k :: 0 <= k < |entries| && ReadStructureDataTypeDefinitionMember(entries[k]) == Err(r.error) &&
              forall j :: 0 <= j < k ==> ReadStructureDataTypeDefinitionMember(entries[j]).Ok?)
  {
    match Iterate(members)
    case Err(fault) => Err(Raised(fault))
    case Ok(entries) => ReadEachMember(entries)
  }

  /**
   * Reads the structure members one by one, appending each to the member list,
   * as the source does to its definition object; an error leaves the partial list
   * behind unobserved. It stands beside the structure reader as the loop form of
   * `ReadMembers`, which the structure reader uses and which it is proved equal to.
   */
  method ReadStructureDataTypeDefinitionMembers(members: Value) returns (r: ReadResult<seq<Member>>)
    ensures r == ReadMembers(members)
  {
    var iterated := Iterate(members);
    if iterated.Err? {
      return Err(Raised(iterated.error));
    }
    var entries := iterated.value;
    var read: seq<Member> := [];
    var i := 0;
    while i < |entries|
      invariant 0 <= i <= |entries|
      invariant |read| == i
      invariant forall j :: 0 <= j < i ==> ReadStructureDataTypeDefinitionMember(entries[j]) == Ok(read[j])
    {
      var member := ReadStructureDataTypeDefinitionMember(entries[i]);
      if member.Err? {
        ReadEachMemberStopsAtFirstFailure(entries, i);
        return Err(member.error);
      }
      read := read + [member.value];
      i := i + 1;
    }
    assert ReadEachMember(entries).value == read;
    return Ok(read);
  }

  /**
   * Reads a structure definition: aliases, description and urls as for a
   * primitive, and the members in order when `members` is truthy (none otherwise).
   */
  function ReadStructureDataTypeDefinition(values: seq<(Value, Value)>, name: Value): (r: ReadResult<Definition>)
    ensures r.Ok? ==> r.value.Structure? && r.value.common == ReadCommon(values, name)
    ensures !Truthy(Get(values, "members")) ==> r == Ok(Structure(ReadCommon(values, name), []))
    ensures Truthy(Get(values, "members")) ==>
      var read := ReadMembers(Get(values, "members"));
      && (r.Ok? <==> read.Ok?)
      && (r.Ok? ==> r.value.members == read.value)
      && (r.Err? ==> r.error == read.error)
  {
    var common := ReadCommon(values, name);
    var members := Get(values, "members");
    if !Truthy(members) then
      Ok(Structure(common, []))
    else
      var read :- ReadMembers(members);
      Ok(Structure(common, read))
  }

  /** Each reader in the table is selected by exactly one type indicator. */
  lemma DataTypeCallbacksTable()
    ensures DataTypeCallbacks.Keys == {"boolean", "character", "integer", "structure"}
    ensures forall s, t :: s in DataTypeCallbacks && t in DataTypeCallbacks && DataTypeCallbacks[s] == DataTypeCallbacks[t] ==> s == t
  {
  }

  /**
   * Runs the reader a type indicator selected: what it reads has the document's
   * common fields and is of the kind whose indicator selects that reader; a
   * primitive reader fails exactly on a truthy `attributes` that is not a dictionary.
   */
  function Dispatch(callback: Callback, values: seq<(Value, Value)>, name: Value): (r: ReadResult<Definition>)
    ensures r.Ok? ==> r.value.common == ReadCommon(values, name)
    ensures r.Ok? ==> r.value.TypeIndicator() in DataTypeCallbacks && DataTypeCallbacks[r.value.TypeIndicator()] == callback
    ensures callback != ReadStructure ==>
      (r.Err? <==> Truthy(Get(values, "attributes")) && !Get(values, "attributes").Dict?)
  {
    match callback
    case ReadBoolean => ReadBooleanDataTypeDefinition(values, name)
    case ReadCharacter => ReadCharacterDataTypeDefinition(values, name)
    case ReadInteger => ReadIntegerDataTypeDefinition(values, name)
    case ReadStructure => ReadStructureDataTypeDefinition(values, name)
  }

  /**
   * Reads a definition from a document: the document, its `name` and its `type`
   * must each be present and non-empty, checked in that order; then the type
   * indicator selects the reader from the table.
   */
  function ReadDefinitionFromDict(document: Value): (r: ReadResult<Definition>)
    ensures !Truthy(document) ==> r == Err(FormatError(MissingValuesMessage))
    ensures Truthy(document) && !document.Dict? ==> r == Err(Raised(AttributeError))
    ensures r == Err(FormatError(MissingNameMessage)) <==>
      (Truthy(document) && document.Dict? && !Truthy(Get(document.entries, "name")))
    ensures r == Err(FormatError(MissingTypeMessage)) <==>
      (Truthy(document) && document.Dict? && Truthy(Get(document.entries, "name")) && !Truthy(Get(document.entries, "type")))
    ensures Truthy(document) && document.Dict? && Truthy(Get(document.entries, "name")) ==>
      var typeIndicator := Get(document.entries, "type");
      && (typeIndicator.Str? && typeIndicator.s in DataTypeCallbacks ==>
            r == Dispatch(DataTypeCallbacks[typeIndicator.s], document.entries, Get(document.entries, "name")))
      && (typeIndicator.Str? && typeIndicator.s != [] && typeIndicator.s !in DataTypeCallbacks ==>
            r == Err(FormatError(UnsupportedMessage(typeIndicator.s))))
      && (Truthy(typeIndicator) && (typeIndicator.List? || typeIndicator.Dict?) ==> r == Err(Raised(TypeError)))
      && (Truthy(typeIndicator) && (typeIndicator.Int? || typeIndicator.Bool?) ==> r == Err(Raised(ValueError)))
    ensures r.Ok? ==>
      && document.Dict?
      && r.value.Name() == Get(document.entries, "name")
      && Truthy(r.value.Name())
      && Get(document.entries, "type") == Str(r.value.TypeIndicator())
  {
    if !Truthy(document) then
      Err(FormatError(MissingValuesMessage))
    else if !document.Dict? then
      Err(Raised(AttributeError))
    else
      var values := document.entries;
      var name := Get(values, "name");
      if !Truthy(name) then
        Err(FormatError(MissingNameMessage))
      else
        var typeIndicator := Get(values, "type");
        if !Truthy(typeIndicator) then
          Err(FormatError(MissingTypeMessage))
        else
          match typeIndicator
          case Str(t) =>
            if t in DataTypeCallbacks then Dispatch(DataTypeCallbacks[t], values, name)
            else Err(FormatError(UnsupportedMessage(t)))
          // A list or a dictionary cannot be looked up in the table: it is unhashable.
          case List(_) => Err(Raised(TypeError))
          case Dict(_) => Err(Raised(TypeError))
          // Any other indicator is not in the table, and formatting it with `{0:s}` fails.
          case _ => Err(Raised(ValueError))
  }

  /**
   * A document whose type indicator selects a primitive reader reads as a
   * definition of that kind unless its `attributes` is truthy but not a
   * dictionary, in which case reading raises.
   */
  lemma PrimitiveTypeIndicatorsRead(document: Value)
    requires Truthy(document) && document.Dict? && Truthy(Get(document.entries, "name"))
    requires Get(document.entries, "type") in {Str("boolean"), Str("character"), Str("integer")}
    ensures var attributes := Get(document.entries, "attributes");
      var r := ReadDefinitionFromDict(document);
      && (r.Ok? <==> !Truthy(attributes) || attributes.Dict?)
      && (r.Err? ==> r.error == Raised(AttributeError))
      && (r.Ok? ==> Str(r.value.TypeIndicator()) == Get(document.entries, "type"))
  {
    var t := Get(document.entries, "type").s;
    assert t in DataTypeCallbacks;
  }
}
