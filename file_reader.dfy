/**
 * The YAML definitions file reader: reads the documents of a file one after the
 * other, registering each definition, and on the first document that fails stops
 * and re-raises its format error prefixed with where in the file it happened.
 * Parsing the YAML text is not modelled: the input is the sequence of documents
 * the parser yields.
 */
module FileReader {
  import opened Results
  import opened Values
  import opened Definitions
  import opened DefinitionReader
  import opened DefinitionsRegistry

  /** Where in the file a format error happened: before any definition, or after the named one. */
  datatype Location = AtStart | After(name: Value)

  /** How reading a file ends when a document fails. */
  datatype FileError =
    | Located(location: Location, message: string)  // a format error, re-raised with its location
    | Uncaught(fault: Fault)                         // any other exception, which passes through

  /** The definitions registered while reading a file, and the error that stopped it, if any. */
  datatype Outcome = Outcome(registered: seq<Definition>, failure: Option<FileError>)

  /**
   * The error reading a file ends in when a document fails with `error`, `last`
   * being the definition registered just before. Only format errors are caught;
   * formatting a name that is an integer or a boolean with `{0:s}` raises.
   */
  function Annotate(last: Option<Definition>, error: ReadError): (r: FileError)
    ensures error.Raised? ==> r == Uncaught(error.fault)
    ensures r.Located? <==> error.FormatError? && (last.None? || !(last.value.Name().Int? || last.value.Name().Bool?))
    ensures r.Located? ==>
      && r.message == error.message
      && (r.location == AtStart <==> last.None?)
      && (last.Some? ==> r.location == After(last.value.Name()))
    ensures error.FormatError? && r.Uncaught? ==> r.fault == ValueError
  {
    match error
    case Raised(fault) => Uncaught(fault)
    case FormatError(message) =>
      match last
      case None => Located(AtStart, message)
      case Some(definition) =>
        var name := definition.Name();
        if name.Int? || name.Bool? then Uncaught(ValueError) else Located(After(name), message)
  }

  /** The text of a located error whose location names a string (or no) definition. */
  function Message(error: FileError): (r: string)
    requires error.Located? && (error.location.After? ==> error.location.name.Str?)
    ensures |error.message| < |r| && r[|r| - |error.message|..] == error.message
    ensures error.location.AtStart? ==> "At start " <= r
    ensures error.location.After? ==> "After: " + error.location.name.s + " " <= r
    ensures error.location.AtStart? ==> |r| == |"At start "| + |error.message|
    ensures error.location.After? ==> |r| == |"After: " + error.location.name.s + " "| + |error.message|
  {
    match error.location
    case AtStart => "At start " + error.message
    case After(name) => "After: " + name.s + " " + error.message
  }

  /** What reading each document on its own yields, in file order. */
  function ReadEach(documents: seq<Value>): (results: seq<ReadResult<Definition>>)
    ensures |results| == |documents|
    ensures forall i :: 0 <= i < |documents| ==> results[i] == ReadDefinitionFromDict(documents[i])
  {
    seq(|documents|, i requires 0 <= i < |documents| => ReadDefinitionFromDict(documents[i]))
  }

  /**
   * Registering the remaining read results in order, `last` being the definition
   * registered last so far: the first failed read ends it with its error annotated.
   */
  function RegisterReads(results: seq<ReadResult<Definition>>, last: Option<Definition>): (r: Outcome)
    ensures |r.registered| <= |results|
    ensures r.failure.None? <==> |r.registered| == |results|
    decreases |results|
  {
    if results == [] then
      Outcome([], None)
    else
      match results[0]
      case Err(error) => Outcome([], Some(Annotate(last, error)))
      case Ok(definition) =>
        var rest := RegisterReads(results[1..], Some(definition));
        Outcome([definition] + rest.registered, rest.failure)
  }

  /** What reading a whole file of `documents` registers and ends in. */
  function ReadFile(documents: seq<Value>): (r: Outcome)
    ensures |r.registered| <= |documents|
    ensures r.failure.None? <==> |r.registered| == |documents|
  {
    RegisterReads(ReadEach(documents), None)
  }

  /**
   * Reads the documents into the registry in order, stopping at the first one
   * that fails and returning the error it raises.
   */
  method ReadFileObject(registry: Registry, documents: seq<Value>) returns (failure: Option<FileError>)
    modifies registry
    ensures registry.definitions == old(registry.definitions) + ReadFile(documents).registered
    ensures failure == ReadFile(documents).failure
  {
    ghost var results := ReadEach(documents);
    var last: Option<Definition> := None;
    ghost var registered: seq<Definition> := [];
    var i := 0;
    while i < |documents|
      invariant 0 <= i <= |documents|
      invariant registry.definitions == old(registry.definitions) + registered
      invariant |registered| == i
      invariant last == if i == 0 then None else Some(registered[i - 1])
      invariant ReadSoFar(results, i, last, registered)
    {
      var read := ReadDefinitionFromDict(documents[i]);
      if read.Err? {
        FailingStep(results, i, last, registered);
        return Some(Annotate(last, read.error));
      }
      SucceedingStep(results, i, last, registered);
      registry.RegisterDefinition(read.value);
      last := Some(read.value);
      registered := registered + [read.value];
      i := i + 1;
    }
    FinalStep(results, last, registered);
    return None;
  }

  /**
   * The state of reading after the first `i` results: `registered` holds their
   * definitions, `last` the last of them, and registering the rest completes the file.
   */
  ghost predicate ReadSoFar(results: seq<ReadResult<Definition>>, i: nat, last: Option<Definition>, registered: seq<Definition>)
    requires i <= |results|
  {
    var rest := RegisterReads(results[i..], last);
    RegisterReads(results, None) == Outcome(registered + rest.registered, rest.failure)
  }

  /** A read that succeeds is registered, becomes the last definition, and reading goes on after it. */
  lemma SucceedingStep(results: seq<ReadResult<Definition>>, i: nat, last: Option<Definition>, registered: seq<Definition>)
    requires i < |results| && ReadSoFar(results, i, last, registered) && results[i].Ok?
    ensures ReadSoFar(results, i + 1, Some(results[i].value), registered + [results[i].value])
  {
    var definition := results[i].value;
    assert results[i..][0] == results[i];
    assert results[i..][1..] == results[i + 1..];
    var rest := RegisterReads(results[i + 1..], Some(definition));
    assert RegisterReads(results[i..], last) == Outcome([definition] + rest.registered, rest.failure);
    assert registered + ([definition] + rest.registered) == (registered + [definition]) + rest.registered;
  }

  /** A read that fails ends reading with its error, annotated with the last definition. */
  lemma FailingStep(results: seq<ReadResult<Definition>>, i: nat, last: Option<Definition>, registered: seq<Definition>)
    requires i < |results| && ReadSoFar(results, i, last, registered) && results[i].Err?
    ensures RegisterReads(results, None) == Outcome(registered, Some(Annotate(last, results[i].error)))
  {
    assert results[i..][0] == results[i];
    assert registered + [] == registered;
  }

  /** With no results left, reading ends without error. */
  lemma FinalStep(results: seq<ReadResult<Definition>>, last: Option<Definition>, registered: seq<Definition>)
    requires ReadSoFar(results, |results|, last, registered)
    ensures RegisterReads(results, None) == Outcome(registered, None)
  {
    assert results[|results|..] == [];
    assert registered + [] == registered;
  }

  /**
   * Registering stops at the first read that fails: every read before it is
   * registered in order, none after it is, and the error names the definition
   * registered just before it (`last` when there is none).
   */
  lemma RegisterReadsStopsAtFirstFailure(results: seq<ReadResult<Definition>>, last: Option<Definition>)
    ensures var outcome := RegisterReads(results, last);
      var k := |outcome.registered|;
      && k <= |results|
      && (forall i :: 0 <= i < k ==> results[i] == Ok(outcome.registered[i]))
      && (outcome.failure.None? <==> k == |results|)
      && (k < |results| ==>
            && results[k].Err?
            && outcome.failure == Some(Annotate(if k == 0 then last else Some(outcome.registered[k - 1]), results[k].error)))
  {
    RegisteredAreRead(results, last);
    FailureAtNextRead(results, last);
  }

  /** The definitions registered are those of the leading results, and reading ends cleanly exactly when all of them succeed. */
  lemma {:induction false} RegisteredAreRead(results: seq<ReadResult<Definition>>, last: Option<Definition>)
    ensures var outcome := RegisterReads(results, last);
      && |outcome.registered| <= |results|
      && (forall i :: 0 <= i < |outcome.registered| ==> results[i] == Ok(outcome.registered[i]))
      && (outcome.failure.None? <==> |outcome.registered| == |results|)
    decreases |results|
  {
    if results != [] && results[0].Ok? {
      var rest := RegisterReads(results[1..], Some(results[0].value));
      var outcome := RegisterReads(results, last);
      assert outcome == Outcome([results[0].value] + rest.registered, rest.failure);
      RegisteredAreRead(results[1..], Some(results[0].value));
      forall i | 1 <= i < |outcome.registered|
        ensures results[i] == Ok(outcome.registered[i])
      {
        assert results[i] == results[1..][i - 1];
      }
    }
  }

  /** When registering ends early, the read after the registered ones failed, and its error is annotated with the last of them. */
  lemma {:induction false} FailureAtNextRead(results: seq<ReadResult<Definition>>, last: Option<Definition>)
    ensures var outcome := RegisterReads(results, last);
      var k := |outcome.registered|;
      k < |results| ==>
        && results[k].Err?
        && outcome.failure == Some(Annotate(if k == 0 then last else Some(outcome.registered[k - 1]), results[k].error))
    decreases |results|
  {
    if results != [] && results[0].Ok? {
      var definition := results[0].value;
      var rest := RegisterReads(results[1..], Some(definition));
      var outcome := RegisterReads(results, last);
      assert outcome == Outcome([definition] + rest.registered, rest.failure);
      FailureAtNextRead(results[1..], Some(definition));
      var j := |rest.registered|;
      if j < |results| - 1 {
        assert results[j + 1] == results[1..][j];
        assert (if j == 0 then Some(definition) else Some(rest.registered[j - 1])) == Some(outcome.registered[j]);
      }
    }
  }

  /**
   * A file whose documents all read registers all their definitions, in order,
   * and ends without error; a file with a failing document ends in an error.
   */
  lemma ReadFileRegistersAll(documents: seq<Value>)
    ensures (forall i :: 0 <= i < |documents| ==> ReadDefinitionFromDict(documents[i]).Ok?) <==> ReadFile(documents).failure.None?
    ensures ReadFile(documents).failure.None? ==>
      && |ReadFile(documents).registered| == |documents|
      && forall i :: 0 <= i < |documents| ==> ReadFile(documents).registered[i] == ReadDefinitionFromDict(documents[i]).value
  {
    RegisterReadsStopsAtFirstFailure(ReadEach(documents), None);
  }

  /** Once a read has failed, no later read matters: appending read results changes nothing. */
  lemma {:induction false} LaterReadsDoNotMatter(results: seq<ReadResult<Definition>>, later: seq<ReadResult<Definition>>, last: Option<Definition>)
    requires RegisterReads(results, last).failure.Some?
    ensures RegisterReads(results + later, last) == RegisterReads(results, last)
    decreases |results|
  {
    assert results != [];
    assert (results + later)[0] == results[0];
    if results[0].Ok? {
      assert (results + later)[1..] == results[1..] + later;
      LaterReadsDoNotMatter(results[1..], later, Some(results[0].value));
    }
  }

  /** Once a document has failed, no later document is read: appending documents changes nothing. */
  lemma LaterDocumentsAreNotRead(documents: seq<Value>, later: seq<Value>)
    requires ReadFile(documents).failure.Some?
    ensures ReadFile(documents + later) == ReadFile(documents)
  {
    assert ReadEach(documents + later) == ReadEach(documents) + ReadEach(later);
    LaterReadsDoNotMatter(ReadEach(documents), ReadEach(later), None);
  }

  /** Reading a file fails exactly at its first failing document. */
  lemma FirstFailureLocates(documents: seq<Value>, k: nat)
    requires k < |documents| && ReadDefinitionFromDict(documents[k]).Err?
    requires forall i :: 0 <= i < k ==> ReadDefinitionFromDict(documents[i]).Ok?
    ensures |ReadFile(documents).registered| == k
    ensures ReadFile(documents).failure ==
      Some(Annotate(if k == 0 then None else Some(ReadDefinitionFromDict(documents[k - 1]).value),
                    ReadDefinitionFromDict(documents[k]).error))
  {
    RegisterReadsStopsAtFirstFailure(ReadEach(documents), None);
  }

  /**
   * The text of the error a format error ends a file in: `At start` and the
   * message when no document before it was registered, otherwise `After:`, the
   * name of the definition registered just before, and the message.
   */
  lemma FormatErrorMessage(documents: seq<Value>, k: nat, message: string)
    requires k < |documents| && ReadDefinitionFromDict(documents[k]) == Err(FormatError(message))
    requires forall i :: 0 <= i < k ==> ReadDefinitionFromDict(documents[i]).Ok?
    requires k > 0 ==> ReadDefinitionFromDict(documents[k - 1]).value.Name().Str?
    ensures ReadFile(documents).failure.Some? && ReadFile(documents).failure.value.Located?
    ensures var error := ReadFile(documents).failure.value;
      && (k == 0 ==> error.location == AtStart && Message(error) == "At start " + message)
      && (k > 0 ==>
            var previous := ReadDefinitionFromDict(documents[k - 1]).value;
            && error.location == After(previous.Name())
            && Message(error) == "After: " + previous.Name().s + " " + message)
  {
    FirstFailureLocates(documents, k);
  }
}
