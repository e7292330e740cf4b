/**
 * The canonical document of a definition: the dictionary a definitions file would
 * hold for it. Reading it back yields the definition, and every definition the
 * reader produces has one, so the reader loses nothing it keeps.
 */
module CanonicalDocuments {
  import opened Results
  import opened Values
  import opened Definitions
  import opened DefinitionReader

  /** A dictionary entry under a string key. */
  function Entry(key: string, value: Value): (Value, Value) {
    (Str(key), value)
  }

  /** A member's entry in a `members` list: a plain entry, or an entry holding a nested `sequence` dictionary. */
  function MemberDocument(member: Member): Value {
    var fields := MemberFields(member);
    match member.shape
    case PlainMember => Dict(fields)
    case SequenceMember => Dict([Entry("sequence", Dict(fields))])
  }

  /** The `attributes` entries of a primitive definition: none when its layout was left at the class defaults. */
  function AttributesEntries(layout: Layout, format: Field): seq<(Value, Value)> {
    match (layout.size, layout.units)
    case (Assigned(size), Assigned(units)) =>
      var formatEntries := if format.Assigned? then [Entry("format", format.value)] else [];
      [Entry("attributes", Dict([Entry("size", size), Entry("units", units)] + formatEntries))]
    case _ => []
  }

  /** The entries every canonical document starts with: name, type indicator, aliases, description and urls. */
  function HeadEntries(definition: Definition): seq<(Value, Value)> {
    var common := definition.common;
    [Entry("name", common.name), Entry("type", Str(definition.TypeIndicator())),
     Entry("aliases", common.aliases), Entry("description", common.description), Entry("urls", common.urls)]
  }

  /** The canonical document of a definition. */
  function ToDocument(definition: Definition): Value {
    var head := HeadEntries(definition);
    match definition
    case Boolean(_, layout) => Dict(head + AttributesEntries(layout, ClassDefault))
    case Character(_, layout) => Dict(head + AttributesEntries(layout, ClassDefault))
    case Integer(_, layout, format) => Dict(head + AttributesEntries(layout, format))
    case Structure(_, members) =>
      Dict(head + [Entry("members", List(seq(|members|, i requires 0 <= i < |members| => MemberDocument(members[i]))))])
  }

  /** A member the reader can produce: a plain member always has a non-empty name. */
  predicate ReadableMember(member: Member) {
    member.shape == PlainMember ==> Truthy(member.name)
  }

  /**
   * A definition the reader can produce: a non-empty name; `size` and `units`
   * either both assigned or both left at the class default, and an integer's
   * `format` assigned exactly when they are.
   */
  predicate Readable(definition: Definition) {
    && Truthy(definition.Name())
    && match definition
       case Boolean(_, layout) => layout.size.Assigned? == layout.units.Assigned?
       case Character(_, layout) => layout.size.Assigned? == layout.units.Assigned?
       case Integer(_, layout, format) =>
         layout.size.Assigned? == layout.units.Assigned? && format.Assigned? == layout.size.Assigned?
       case Structure(_, members) => forall i :: 0 <= i < |members| ==> ReadableMember(members[i])
  }

  /** The four fields of a member, as its entry or its nested `sequence` dictionary holds them. */
  function MemberFields(member: Member): seq<(Value, Value)> {
    [Entry("name", member.name), Entry("aliases", member.aliases),
     Entry("data_type", member.dataType), Entry("description", member.description)]
  }

  /** Looking up a member's fields finds each field, and no `sequence` or `union`. */
  lemma MemberFieldsLookup(member: Member)
    ensures var fields := MemberFields(member);
      && Get(fields, "name") == member.name
      && Get(fields, "aliases") == member.aliases
      && Get(fields, "data_type") == member.dataType
      && Get(fields, "description") == member.description
      && Get(fields, "sequence") == Null
      && Get(fields, "union") == Null
  {
    var fields := MemberFields(member);
    LookupFirst(fields, 0, "name");
    LookupFirst(fields, 1, "aliases");
    LookupFirst(fields, 2, "data_type");
    LookupFirst(fields, 3, "description");
  }

  /** Reading a readable member's canonical entry yields that member. */
  lemma MemberRoundTrip(member: Member)
    requires ReadableMember(member)
    ensures ReadStructureDataTypeDefinitionMember(MemberDocument(member)) == Ok(member)
  {
    MemberFieldsLookup(member);
    var fields := MemberFields(member);
    var entry := MemberDocument(member);
    if member.shape == PlainMember {
      assert entry == Dict(fields);
      assert Truthy(Get(fields, "name"));
      assert ReadStructureDataTypeDefinitionMember(entry)
          == Ok(Member(PlainMember, Get(fields, "name"), Get(fields, "aliases"), Get(fields, "data_type"), Get(fields, "description")));
    } else {
      var outer := [Entry("sequence", Dict(fields))];
      assert entry == Dict(outer);
      assert Get(outer, "sequence") == Dict(fields);
      assert Get(outer, "name") == Null;
      assert Get(outer, "union") == Null;
      assert ReadStructureDataTypeDefinitionMember(entry)
          == Ok(Member(SequenceMember, Get(fields, "name"), Get(fields, "aliases"), Get(fields, "data_type"), Get(fields, "description")));
    }
  }

  /** The head entries give back the name, the type indicator and the common fields, whatever `attributes` or `members` entry follows. */
  lemma HeadLookup(definition: Definition, tail: seq<(Value, Value)>)
    requires forall i :: 0 <= i < |tail| ==> tail[i].0 in {Str("attributes"), Str("members")}
    ensures var values := HeadEntries(definition) + tail;
      && Get(values, "name") == definition.Name()
      && Get(values, "type") == Str(definition.TypeIndicator())
      && ReadCommon(values, definition.Name()) == definition.common
  {
    var values := HeadEntries(definition) + tail;
    LookupFirst(values, 0, "name");
    LookupFirst(values, 1, "type");
    LookupFirst(values, 2, "aliases");
    LookupFirst(values, 3, "description");
    LookupFirst(values, 4, "urls");
  }

  /** The `attributes` entry is truthy exactly when the layout is assigned, and then gives back size, units and format. */
  lemma AttributesLookup(definition: Definition, layout: Layout, format: Field)
    requires layout.size.Assigned? == layout.units.Assigned?
    requires format.Assigned? ==> layout.size.Assigned?
    ensures var values := HeadEntries(definition) + AttributesEntries(layout, format);
      var attributes := Get(values, "attributes");
      && (Truthy(attributes) <==> layout.size.Assigned?)
      && (Truthy(attributes) ==>
            && attributes.Dict?
            && Assigned(Get(attributes.entries, "size")) == layout.size
            && Assigned(GetOr(attributes.entries, "units", Str("bytes"))) == layout.units
            && (format.Assigned? ==> Assigned(Get(attributes.entries, "format")) == format))
  {
    var values := HeadEntries(definition) + AttributesEntries(layout, format);
    if layout.size.Assigned? {
      LookupFirst(values, 5, "attributes");
      var attributes := values[5].1;
      LookupFirst(attributes.entries, 0, "size");
      LookupFirst(attributes.entries, 1, "units");
      if format.Assigned? {
        LookupFirst(attributes.entries, 2, "format");
      }
    }
  }

  /** Reading the canonical entries of readable members yields those members, in order. */
  lemma MembersRoundTrip(members: seq<Member>)
    requires forall i :: 0 <= i < |members| ==> ReadableMember(members[i])
    ensures var documents := seq(|members|, i requires 0 <= i < |members| => MemberDocument(members[i]));
      ReadEachMember(documents) == Ok(members)
  {
    var documents := seq(|members|, i requires 0 <= i < |members| => MemberDocument(members[i]));
    forall i | 0 <= i < |members|
      ensures ReadStructureDataTypeDefinitionMember(documents[i]) == Ok(members[i])
    {
      MemberRoundTrip(members[i]);
    }
    assert ReadEachMember(documents).value == members;
  }

  /** A canonical document with a non-empty name reaches the reader its type indicator selects. */
  lemma HeadDispatch(definition: Definition, tail: seq<(Value, Value)>)
    requires Truthy(definition.Name())
    requires forall i :: 0 <= i < |tail| ==> tail[i].0 in {Str("attributes"), Str("members")}
    ensures definition.TypeIndicator() in DataTypeCallbacks
    ensures ReadDefinitionFromDict(Dict(HeadEntries(definition) + tail))
         == Dispatch(DataTypeCallbacks[definition.TypeIndicator()], HeadEntries(definition) + tail, definition.Name())
  {
    HeadLookup(definition, tail);
  }

  /** Reading a readable primitive definition's canonical document yields that definition. */
  lemma PrimitiveRoundTrip(definition: Definition)
    requires Readable(definition) && !definition.Structure?
    ensures ReadDefinitionFromDict(ToDocument(definition)) == Ok(definition)
  {
    var format := if definition.Integer? then definition.format else ClassDefault;
    var tail := AttributesEntries(definition.layout, format);
    var values := HeadEntries(definition) + tail;
    var name := definition.Name();
    assert ToDocument(definition) == Dict(values);
    HeadLookup(definition, tail);
    HeadDispatch(definition, tail);
    AttributesLookup(definition, definition.layout, format);
    var cls := match definition
      case Boolean(_, _) => BooleanClass
      case Character(_, _) => CharacterClass
      case Integer(_, _, _) => IntegerClass;
    assert ReadPrimitiveDataTypeDefinition(values, cls, name) == Ok(Construct(cls, definition.common, definition.layout));
  }

  /** The structure reader, given a readable structure's canonical entries, rebuilds that structure. */
  lemma StructureReadsBack(definition: Definition, list: Value)
    requires Readable(definition) && definition.Structure?
    requires list == List(seq(|definition.members|, i requires 0 <= i < |definition.members| => MemberDocument(definition.members[i])))
    ensures ReadStructureDataTypeDefinition(HeadEntries(definition) + [Entry("members", list)], definition.Name()) == Ok(definition)
  {
    var members := definition.members;
    var values := HeadEntries(definition) + [Entry("members", list)];
    HeadLookup(definition, [Entry("members", list)]);
    LookupFirst(values, 5, "members");
    assert Get(values, "members") == list;
    if members != [] {
      MembersRoundTrip(members);
      assert ReadMembers(list) == Ok(members);
    }
  }

  /** Reading a readable structure's canonical document yields that structure. */
  lemma StructureRoundTrip(definition: Definition)
    requires Readable(definition) && definition.Structure?
    ensures ReadDefinitionFromDict(ToDocument(definition)) == Ok(definition)
  {
    var members := definition.members;
    var list := List(seq(|members|, i requires 0 <= i < |members| => MemberDocument(members[i])));
    assert ToDocument(definition) == Dict(HeadEntries(definition) + [Entry("members", list)]);
    HeadDispatch(definition, [Entry("members", list)]);
    StructureReadsBack(definition, list);
  }

  /** Reading a readable definition's canonical document yields that definition. */
  lemma DocumentRoundTrip(definition: Definition)
    requires Readable(definition)
    ensures ReadDefinitionFromDict(ToDocument(definition)) == Ok(definition)
  {
    if definition.Structure? {
      StructureRoundTrip(definition);
    } else {
      PrimitiveRoundTrip(definition);
    }
  }

  /** Every definition the reader produces is readable. */
  lemma ReadYieldsReadable(document: Value)
    ensures ReadDefinitionFromDict(document).Ok? ==> Readable(ReadDefinitionFromDict(document).value)
  {
    var r := ReadDefinitionFromDict(document);
    if r.Ok? && r.value.Structure? {
      var values := document.entries;
      var members := Get(values, "members");
      if Truthy(members) {
        var entries := Iterate(members).value;
        assert ReadEachMember(entries).value == r.value.members;
        forall i | 0 <= i < |r.value.members| ensures ReadableMember(r.value.members[i]) {
          assert r.value.members[i] == ReadStructureDataTypeDefinitionMember(entries[i]).value;
        }
      }
    }
  }

  /**
   * Whatever a document reads as, its canonical document reads as the same
   * definition: the definition alone determines what the reader makes of it.
   */
  lemma ReadThroughCanonicalDocument(document: Value)
    requires ReadDefinitionFromDict(document).Ok?
    ensures ReadDefinitionFromDict(ToDocument(ReadDefinitionFromDict(document).value)) == ReadDefinitionFromDict(document)
  {
    ReadYieldsReadable(document);
    DocumentRoundTrip(ReadDefinitionFromDict(document).value);
  }
}
