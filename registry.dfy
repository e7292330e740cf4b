/**
 * The definitions registry, as the reader sees it: an ordered collection that
 * registering a definition appends to. Lookup and the handling of a name that is
 * already registered belong to the registry itself and are not part of this model.
 */
module DefinitionsRegistry {
  import opened Definitions

  class Registry {
    /** The registered definitions, in the order they were registered. */
    var definitions: seq<Definition>

    constructor ()
      ensures definitions == []
    {
      definitions := [];
    }

    method RegisterDefinition(definition: Definition)
      modifies this
      ensures definitions == old(definitions) + [definition]
    {
      definitions := definitions + [definition];
    }
  }
}
