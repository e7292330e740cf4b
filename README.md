# dtfabric definition reader — a Dafny model

dtfabric describes binary data formats declaratively. Its definition reader turns
parsed definition documents into typed data type definitions and registers them.
Each document is a dictionary with a `name`, a `type` and optional `aliases`,
`description`, `urls`, `attributes` and `members`. This project models that reader
(`dtfabric/reader.py`) and proves what it does with every input.

- **Values** (`values.dfy`): the loaded documents are None, booleans, integers,
  strings, lists and dictionaries. The module also gives the Python behaviour the
  reader depends on: truthiness, `dict.get` and what `for x in v` visits.
  Python exceptions other than the reader's own `FormatError` are modelled as
  explicit faults: AttributeError, TypeError, ValueError and UnboundLocalError.
- **Definitions** (`definitions.dfy`): boolean, character, integer and structure
  definitions, plus structure members. An attribute the reader never assigns keeps
  `ClassDefault`, which is whatever the definition class's constructor gives it.
- **Reader** (`reader.dfy`): the type-indicator table and the per-kind readers.
  It also has the member reader, the member loop (a method proved against a
  specification function) and `ReadDefinitionFromDict`.
- **Canonical documents** (`documents.dfy`): the document a definition would come
  from. Reading that document gives back the definition. Every definition the
  reader produces has such a document.
- **Registry** (`registry.dfy`): an ordered collection. Registering a definition
  appends it.
- **File reader** (`file_reader.dfy`): `ReadFileObject` reads the documents of a
  file in order and registers each definition. It stops at the first document
  that fails and re-raises the error with its location: "At start" or
  "After: <name of the previous definition>".

What the source does on unusual input is kept:

- A document or member that is truthy but is not a dictionary raises
  AttributeError.
- A list or dictionary used as a type indicator raises TypeError, because it
  cannot be looked up in the table.
- An integer or boolean type indicator raises ValueError, because formatting it
  with `{0:s}` fails.
- A member entry whose `sequence` is truthy but not a dictionary raises
  AttributeError.
- A member entry with a truthy `union` and no truthy `sequence` raises
  UnboundLocalError, whatever its name. That branch is unimplemented and reads
  variables no branch has assigned.
- `ReadFileObject` catches only format errors, so all of these pass through with
  no location prefix.

## Model

| member | source | states |
|---|---|---|
| `Values.Lookup` | dtfabric/reader.py:57-59 | a key is found exactly when some entry carries it (the basis of `dict.get`) |
| `Values.LookupFirst` | dtfabric/reader.py:57-59 | the first entry carrying the key decides what `get` returns |
| `Values.FalsyValues` | dtfabric/reader.py:224-233 | the values `not` treats as false are exactly None, False, 0 and the empty string, list and dictionary |
| `Values.GetFirst` | dtfabric/reader.py:227-231 | `d.get(key, default)` and `d.get(key)` give the first entry's value under the key, and the default (None) when no entry has it |
| `Values.Iterate` | dtfabric/reader.py:205 | `for` visits a list's items, a dictionary's keys or a string's characters; any other value raises TypeError |
| `DefinitionReader.ReadPrimitiveDataTypeDefinition` | dtfabric/reader.py:43-69 | aliases, description and urls come from the document (None when absent). Only a truthy `attributes` assigns `size` (None when absent) and `units` (`bytes` when absent); otherwise both keep their class defaults. A truthy non-dictionary `attributes` raises AttributeError |
| `DefinitionReader.ReadBooleanDataTypeDefinition` | dtfabric/reader.py:71-83 | a successful read is a boolean definition |
| `DefinitionReader.ReadCharacterDataTypeDefinition` | dtfabric/reader.py:85-97 | a successful read is a character definition |
| `DefinitionReader.ReadIntegerDataTypeDefinition` | dtfabric/reader.py:99-117 | the primitive read plus `format` from a truthy `attributes` (None when absent); `format` keeps its class default otherwise; it fails exactly when the primitive read fails |
| `DefinitionReader.ReadStructureDataTypeDefinitionMember` | dtfabric/reader.py:144-194 | "missing values" exactly for an empty entry. "Missing name, sequence or union" exactly when all three are falsy. A truthy dictionary `sequence` gives a sequence member whose fields all come from it; any other truthy `sequence` raises AttributeError. An entry with a truthy `union` and no truthy `sequence` raises, whatever its name. An entry with a truthy name and neither of the two reads as a plain member with the entry's own fields |
| `DefinitionReader.ReadEachMember` | dtfabric/reader.py:196-208 | succeeds exactly when every entry reads; then there is one member per entry, in entry order. A failure carries the error of the first failing entry |
| `DefinitionReader.ReadEachMemberStopsAtFirstFailure` | dtfabric/reader.py:205-208 | the error is exactly that of the first entry that fails |
| `DefinitionReader.ReadMembers` | dtfabric/reader.py:137-140 | a non-iterable `members` raises TypeError; otherwise the read succeeds exactly when every iterated value reads as a member, giving one member per value in iteration order, and fails with the error of the first value that does not read |
| `DefinitionReader.ReadStructureDataTypeDefinitionMembers` | dtfabric/reader.py:196-208 | the append loop yields exactly the specified member list or first error |
| `DefinitionReader.ReadStructureDataTypeDefinition` | dtfabric/reader.py:119-142 | a structure definition with the document's aliases, description and urls. A missing or empty `members` gives no members. Otherwise it succeeds exactly when the members read, with those members, and fails with their error |
| `DefinitionReader.ReadDefinitionFromDict` | dtfabric/reader.py:210-242 | an empty document gives "missing values", and a truthy non-dictionary raises AttributeError. "Missing name" occurs exactly when the name is falsy. "Missing type" occurs exactly when the name is present and the type is falsy, so the name is checked first. A string type in the table gives exactly what the selected reader reads from the document; one outside it gives the "unsupported" error. A list or dictionary type raises TypeError, an integer or boolean type ValueError. Any definition read has the document's name and the kind its type names |
| `DefinitionReader.PrimitiveTypeIndicatorsRead` | dtfabric/reader.py:36-41 | `boolean`, `character` and `integer` always select a reader of that kind; it fails only on a truthy non-dictionary `attributes` |
| `DefinitionReader.DataTypeCallbacksTable` | dtfabric/reader.py:36-41 | the table has exactly the indicators `boolean`, `character`, `integer` and `structure`, and no two select the same reader |
| `DefinitionReader.Dispatch` | dtfabric/reader.py:235-242 | the selected reader's definition has the document's aliases, description and urls and is of the kind whose indicator selects that reader; a primitive reader fails exactly on a truthy `attributes` that is not a dictionary |
| `CanonicalDocuments.MemberRoundTrip` | dtfabric/reader.py:158-191 | reading a member's canonical entry yields that member |
| `CanonicalDocuments.MembersRoundTrip` | dtfabric/reader.py:205-208 | reading a list of canonical entries yields the members in order |
| `CanonicalDocuments.PrimitiveRoundTrip` | dtfabric/reader.py:43-117 | reading a readable primitive definition's document yields it back |
| `CanonicalDocuments.HeadDispatch` | dtfabric/reader.py:226-242 | a canonical document with a non-empty name passes every check and reaches the reader its type indicator selects in the table |
| `CanonicalDocuments.StructureReadsBack` | dtfabric/reader.py:119-142 | the structure reader rebuilds a readable structure from its canonical entries, members included |
| `CanonicalDocuments.StructureRoundTrip` | dtfabric/reader.py:119-142 | reading a readable structure definition's document yields it back |
| `CanonicalDocuments.DocumentRoundTrip` | dtfabric/reader.py:210-242 | `ReadDefinitionFromDict(ToDocument(d)) == Ok(d)` for every readable definition |
| `CanonicalDocuments.ReadYieldsReadable` | dtfabric/reader.py:210-242 | every definition the reader produces is readable: a non-empty name, `size` and `units` assigned together, an integer's `format` assigned with them, and named plain members |
| `CanonicalDocuments.ReadThroughCanonicalDocument` | dtfabric/reader.py:210-242 | re-reading the canonical document of anything read gives the same definition |
| `DefinitionsRegistry.Registry.RegisterDefinition` | dtfabric/reader.py:322 | registering appends the definition to the registry's ordered contents |
| `FileReader.Annotate` | dtfabric/reader.py:313-320 | only format errors are caught and located; the location is "at start" exactly when nothing was registered before, else after the last definition's name, and the message is kept; an integer or boolean name raises ValueError instead |
| `FileReader.Message` | dtfabric/reader.py:319-320 | the re-raised text is exactly the location (`At start ` or `After: <name> `) followed directly by the original message: it starts with the location, ends with the message, and is no longer than the two together |
| `FileReader.ReadEach` | dtfabric/reader.py:308-311 | one read result per document, in file order, each what `ReadDefinitionFromDict` makes of that document |
| `FileReader.RegisterReads` | dtfabric/reader.py:307-323 | registering read results in order registers at most one definition per result, and ends without error exactly when all are registered |
| `FileReader.ReadFile` | dtfabric/reader.py:298-323 | reading a file registers at most one definition per document, and ends without error exactly when all documents are registered |
| `FileReader.ReadFileObject` | dtfabric/reader.py:298-323 | the registry ends as its old contents plus the definitions registered before the first failure, and the returned error is the specified one |
| `FileReader.SucceedingStep` | dtfabric/reader.py:310-323 | a document that reads is registered and becomes the tracked last definition, and reading continues with the next document |
| `FileReader.FailingStep` | dtfabric/reader.py:313-320 | a document that fails ends reading: nothing more is registered, and the error is annotated with the last registered definition |
| `FileReader.FinalStep` | dtfabric/reader.py:308 | once every document is read, reading ends without error |
| `FileReader.RegisterReadsStopsAtFirstFailure` | dtfabric/reader.py:307-323 | the registered definitions are exactly those of the reads before the first failing one, in order. There is an error exactly when a read failed. That error annotates the failing read's error with the definition registered just before it |
| `FileReader.RegisteredAreRead` | dtfabric/reader.py:308-323 | every registered definition is the successful read at its position, and reading ends cleanly exactly when all reads are registered |
| `FileReader.FailureAtNextRead` | dtfabric/reader.py:313-320 | when reading ends early, the read right after the registered ones failed, and the error is its error located after the last registered definition (or at the start) |
| `FileReader.ReadFileRegistersAll` | dtfabric/reader.py:308-323 | no error exactly when every document reads; then every definition is registered in document order |
| `FileReader.LaterReadsDoNotMatter` | dtfabric/reader.py:313-320 | after a failed read, appending more read results changes nothing |
| `FileReader.LaterDocumentsAreNotRead` | dtfabric/reader.py:308-320 | after a failing document, documents that follow make no difference to the file's outcome |
| `FileReader.FirstFailureLocates` | dtfabric/reader.py:313-320 | the file fails at its first failing document, located after the document before it (or at the start) |
| `FileReader.FormatErrorMessage` | dtfabric/reader.py:313-320 | a format error's text is `At start <message>` for the first document, else `After: <previous name> <message>` |

## Left out

- YAML parsing (`yaml.safe_load_all`) is not modelled. The input is the sequence of documents it yields, already parsed. Floating-point, date and other YAML scalars are not among the value forms.
- The source's `ReadDirectory` and `ReadFile` methods are left out (the model's `FileReader.ReadFile` is the specification of `ReadFileObject`): they only glob the file system and open files.
- Linking each member to the registry (`SetDataTypeDefinitionsRegistry`) is left out. The registry module is not part of this model.
- The registry's own behaviour is left out, including a second definition with an already registered name. Registering is an append to an ordered collection.
- The definition classes are not part of this model. Constructor defaults of `size`, `units` and `format` are kept abstract as `ClassDefault`. A definition object is taken to be truthy when the reader tests `last_definition_object`.
- Member loop: the source appends each member to the definition object's list in place. The model's loop appends to a local list, because the partly built object is never returned when a member fails.
- FileReader.Message: it renders only a location whose name is a string. Python would render a list or dictionary name with `str()`; the model keeps that name as a value in the location.
- FileReader.Annotate: it follows Python 2, where `'{1:s}'.format(exception)` gives the exception's message. Under Python 3 that formatting raises TypeError, which is not modelled.
- Values.Iterate: a mapping iterated as `members` is visited in the order its entries are listed. Python 2.7 does not guarantee that order: it iterates a dictionary in hash order. Which member entry fails first, and so which error is raised, can therefore differ from the source.
- The union member layout is not modelled. The source leaves that branch unimplemented, and it always raises.
