/** `SwaggerValidator`: holds a Swagger spec rewritten once at construction,
    and validates payloads against one of its definitions through the shared
    compiled-schema cache.

    What the engine does with a compiled schema (`JsonSchema.validate`) is
    the function `run`: it yields the report, or fails with the message of
    the `ProcessingException` the engine throws. Turning payload text into a
    tree (Jackson's `readTree`) is the function `parse`, which fails with the
    parser's message and yields `JMissing` for text that holds no value. A
    Java `null` payload string is `None`. */
module Validator {
  import opened JsonValues
  import opened Wrappers
  import opened Reports
  import opened Transformations
  import opened SchemaTransform
  import opened SchemaCaching

  datatype ValidationError =
    | EmptyPayload                    // IOException("Payload is empty")
    | ParseFailure(message: string)   // the deserializer's exception, passed through
    | Processing(cause: CacheError)   // ProcessingException from getSchema or the engine

  /** The engine's outcome as the caller sees it: the report, or its
      `ProcessingException` passed through unchanged. */
  function EngineOutcome(outcome: Result<seq<Message>, string>): (r: Result<seq<Message>, ValidationError>)
    ensures outcome.Success? <==> r.Success?
    ensures outcome.Success? ==> r.value == outcome.value
    ensures outcome.Failure? ==> r.error == Processing(ProcessingError(outcome.error))
  {
    match outcome
    case Success(report) => Success(report)
    case Failure(message) => Failure(Processing(ProcessingError(message)))
  }

  class SwaggerValidator<S> {
    const schemaObject: Json
    const cache: SchemaCache<S>
    const run: (S, Json, bool) -> Result<seq<Message>, string>

    /** The private constructor behind `forJsonSchema`, `forYamlSchema` (with
        no custom table) and `forJsonNode`: merge the tables, then rewrite the
        spec with the merged table. */
    constructor (schema: Json, customTransformations: Table, cache: SchemaCache<S>,
                 run: (S, Json, bool) -> Result<seq<Message>, string>)
      ensures schemaObject == TransformDocument(schema, Merge(customTransformations, Builtin))
      ensures customTransformations == [] ==> schemaObject == TransformDocument(schema, Builtin)
      ensures this.cache == cache && this.run == run
    {
      var merged := MergeTransformations(customTransformations);
      var transformed := Transform(schema, merged);
      schemaObject := transformed;
      this.cache := cache;
      this.run := run;
    }

    /** `validate(JsonNode, String, boolean)`: fetch (or compile) the schema
        of the definition, and return exactly the engine's report, or the
        exception the lookup or the engine throws. */
    method ValidateTree(payload: Json, definitionPointer: string, deepCheck: bool)
      returns (r: Result<seq<Message>, ValidationError>)
      requires cache.Valid()
      modifies cache
      ensures cache.Valid()
      ensures cache.attempts == old(cache.attempts) +
        (if (schemaObject, definitionPointer) in old(cache.entries) then [] else [(schemaObject, definitionPointer)])
      ensures cache.compiled == old(cache.compiled) +
        (if (schemaObject, definitionPointer) !in old(cache.entries) && (schemaObject, definitionPointer) in cache.entries
         then [(schemaObject, definitionPointer)] else [])
      ensures var (lookup, after) := GetOrCompile(old(cache.entries), (schemaObject, definitionPointer), cache.compile);
        cache.entries == after &&
        r == match lookup
             case Success(schema) => EngineOutcome(run(schema, payload, deepCheck))
             case Failure(e) => Failure(Processing(e))
    {
      var schema := cache.GetSchema(schemaObject, definitionPointer);
      match schema {
        case Success(compiled) =>
          var outcome := run(compiled, payload, deepCheck);
          match outcome {
            case Success(report) => r := Success(report);
            case Failure(message) => r := Failure(Processing(ProcessingError(message)));
          }
        case Failure(e) => r := Failure(Processing(e));
      }
    }

    /** `validate(JsonNode, String)`: the same without deep checking. */
    method ValidateTreeShallow(payload: Json, definitionPointer: string)
      returns (r: Result<seq<Message>, ValidationError>)
      requires cache.Valid()
      modifies cache
      ensures cache.Valid()
      ensures cache.attempts == old(cache.attempts) +
        (if (schemaObject, definitionPointer) in old(cache.entries) then [] else [(schemaObject, definitionPointer)])
      ensures cache.compiled == old(cache.compiled) +
        (if (schemaObject, definitionPointer) !in old(cache.entries) && (schemaObject, definitionPointer) in cache.entries
         then [(schemaObject, definitionPointer)] else [])
      ensures var (lookup, after) := GetOrCompile(old(cache.entries), (schemaObject, definitionPointer), cache.compile);
        cache.entries == after &&
        r == match lookup
             case Success(schema) => EngineOutcome(run(schema, payload, false))
             case Failure(e) => Failure(Processing(e))
    {
      r := ValidateTree(payload, definitionPointer, false);
    }

    /** `validate(String, String, ObjectMapper)`: a null or empty payload is
        refused before it is parsed or the cache is touched; a payload that
        does not parse fails with the parser's error; otherwise the tree is
        validated without deep checking. */
    method ValidateText(payload: Option<string>, definitionPointer: string,
                        parse: string -> Result<Json, string>)
      returns (r: Result<seq<Message>, ValidationError>)
      requires cache.Valid()
      modifies cache
      ensures cache.Valid()
      ensures payload == None || payload == Some("") ==>
        r == Failure(EmptyPayload) && unchanged(cache)
      ensures payload.Some? && payload.value != "" && parse(payload.value).Failure? ==>
        r == Failure(ParseFailure(parse(payload.value).error)) && unchanged(cache)
      ensures payload.Some? && payload.value != "" && parse(payload.value).Success? ==>
        cache.attempts == old(cache.attempts) +
          (if (schemaObject, definitionPointer) in old(cache.entries) then [] else [(schemaObject, definitionPointer)])
      ensures payload.Some? && payload.value != "" && parse(payload.value).Success? ==>
        cache.compiled == old(cache.compiled) +
          (if (schemaObject, definitionPointer) !in old(cache.entries) && (schemaObject, definitionPointer) in cache.entries
           then [(schemaObject, definitionPointer)] else [])
      ensures payload.Some? && payload.value != "" && parse(payload.value).Success? ==>
        var (lookup, after) := GetOrCompile(old(cache.entries), (schemaObject, definitionPointer), cache.compile);
        cache.entries == after &&
        r == match lookup
             case Success(schema) => EngineOutcome(run(schema, parse(payload.value).value, false))
             case Failure(e) => Failure(Processing(e))
    {
      if payload.None? || payload.value == "" {
        return Failure(EmptyPayload);
      }
      var tree := parse(payload.value);
      match tree {
        case Failure(message) => r := Failure(ParseFailure(message));
        case Success(node) => r := ValidateTreeShallow(node, definitionPointer);
      }
    }

    /** Two validations against one definition: the second finds the schema
        the first cached, so a definition that compiles is compiled once, and
        a second lookup never adds an entry. */
    method ValidateTwice(first: Json, second: Json, definitionPointer: string, deepCheck: bool)
      returns (r1: Result<seq<Message>, ValidationError>, r2: Result<seq<Message>, ValidationError>)
      requires cache.Valid()
      modifies cache
      ensures cache.Valid()
      ensures cache.entries == GetOrCompile(old(cache.entries), (schemaObject, definitionPointer), cache.compile).1
      ensures (schemaObject, definitionPointer) in cache.entries ==>
        |cache.attempts| <= |old(cache.attempts)| + 1 &&
        r2 == EngineOutcome(run(cache.entries[(schemaObject, definitionPointer)], second, deepCheck))
      ensures |cache.compiled| <= |old(cache.compiled)| + 1
    {
      r1 := ValidateTree(first, definitionPointer, deepCheck);
      r2 := ValidateTree(second, definitionPointer, deepCheck);
    }
  }
}
