# swagger-schema-validator core in Dafny

This project models how `SwaggerValidator` prepares a Swagger 2.0 spec and dispatches payload validation. It covers four parts:

- **The rename tables.** A built-in table maps twelve vendor-extension keywords (`x-oneOf`, `x-allOf`, …) to the JSON Schema keywords they stand for. The constructor merges a caller's own table with it: the custom entries come first, and a built-in entry wins on a shared key.
- **The spec rewrite.** Below the top-level `definitions` member, every object node has each `from` key of the merged table moved to its `to` key, entry by entry. Then its children are rewritten the same way.
- **The compiled-schema cache.** It is keyed by (spec, definition pointer). An entry is compiled on the first request that misses and stored only when compilation succeeds. The caller sees an unresolved pointer as `Unknown definition <pointer>`.
- **Validation dispatch, plus two format checks.** A null or empty text payload is refused before parsing. The `byte` format requires base64 text. The `int32` format warns about integers that do not fit a Java `int`.

The JSON tree is a value datatype (`JsonValues.Json`). Each in-place rewrite of Jackson nodes is modelled as a function that returns the rewritten tree. Next to each function is a method shaped like the source's loops, proved equal to that function.

The engine is passed in as function parameters:
- compiling a definition is `compile`;
- running a compiled schema over a payload is `run`, which yields the report or fails with the message of the engine's `ProcessingException`;
- parsing payload text is `parse`, which fails with the parser's error or yields a tree; text with no JSON value in it (blanks, say) yields Jackson's missing node, `JMissing`.

A report is the list of messages it holds (`Reports.ProcessingReport`). It counts as a success when no message is at level error or fatal.

## Model

| member | source | states |
|---|---|---|
| Transformations.MergeTransformations | src/main/java/com/github/bjansen/ssv/SwaggerValidator.java:47-54 | the merged table is the built-in table when the custom table is empty, otherwise the custom table with every built-in entry put into it in order |
| Transformations.PutAllShape | src/main/java/com/github/bjansen/ssv/SwaggerValidator.java:52-53 | `putAll` into a linked map keeps the existing entries in place with the incoming value winning on shared keys, and appends the new keys in their order |
| Transformations.MergeShape | src/main/java/com/github/bjansen/ssv/SwaggerValidator.java:46-54 | the merged table is the built-in table for an empty custom table; otherwise it is the custom entries in order with built-in values overriding shared keys, then the built-in entries the custom table lacks |
| Transformations.MergeDisjoint | src/main/java/com/github/bjansen/ssv/SwaggerValidator.java:52-53 | a non-empty custom table sharing no key with the built-in one merges into the custom entries followed by all built-in entries |
| SchemaTransform.BuiltinWellFormed | src/main/java/com/github/bjansen/ssv/SwaggerValidator.java:28-42 | the built-in table has distinct keys and no entry renames into a key an earlier entry removes |
| SchemaTransform.BuiltinMovesOneOf | src/main/java/com/github/bjansen/ssv/SwaggerValidator.java:40 | at any node holding `x-oneOf`, whatever else it holds, the built-in table leaves `oneOf` with that value and no `x-oneOf` |
| SchemaTransform.RenameEntry | src/main/java/com/github/bjansen/ssv/SwaggerValidator.java:165-168 | after one entry `from` is gone; a present `from` moves its value to `to`; an absent `from` leaves the node as it was; no other key changes |
| SchemaTransform.RenameAll | src/main/java/com/github/bjansen/ssv/SwaggerValidator.java:164-169 | applying the table only moves values between keys: every value of the result was a value of the node |
| SchemaTransform.ApplyTransformations | src/main/java/com/github/bjansen/ssv/SwaggerValidator.java:164-169 | the loop over the table at one node computes `RenameAll` |
| SchemaTransform.RenameAllRemovesFroms | src/main/java/com/github/bjansen/ssv/SwaggerValidator.java:164-169 | for a table that never renames into a key it removed earlier, no `from` key survives at the node |
| SchemaTransform.RenameAllAbsent | src/main/java/com/github/bjansen/ssv/SwaggerValidator.java:164-169 | a node with none of the table's `from` keys is left unchanged |
| SchemaTransform.RenameAllConcat | src/main/java/com/github/bjansen/ssv/SwaggerValidator.java:164-169 | applying a table `a + b` is applying `a`, then `b` |
| SchemaTransform.CustomBeforeBuiltin | src/main/java/com/github/bjansen/ssv/SwaggerValidator.java:82-85 | with a custom table disjoint from the built-in one, each node is renamed by the custom entries first and then by the built-in ones |
| SchemaTransform.CustomRenameIntoVendorKey | src/main/java/com/github/bjansen/ssv/SwaggerValidator.java:49-56 | at any node holding `x-oneof`, whatever else it holds, a custom `x-oneof → x-oneOf` entry merged with the built-in table leaves `oneOf` with that value and neither `x-oneof` nor `x-oneOf`, in one visit |
| SchemaTransform.TransformNode | src/main/java/com/github/bjansen/ssv/SwaggerValidator.java:160-175 | objects stay objects with the renamed key set, arrays stay arrays of the same length, scalars are unchanged |
| SchemaTransform.TransformRecursively | src/main/java/com/github/bjansen/ssv/SwaggerValidator.java:160-175 | the recursive walk (rename here, then visit every child) computes `TransformNode` |
| SchemaTransform.TransformMembers | src/main/java/com/github/bjansen/ssv/SwaggerValidator.java:172-174 | the loop over an object's member values rewrites each of them and keeps the keys |
| SchemaTransform.TransformElements | src/main/java/com/github/bjansen/ssv/SwaggerValidator.java:172-174 | the loop over an array's elements rewrites each of them and keeps the length |
| SchemaTransform.TransformNodeIsFree | src/main/java/com/github/bjansen/ssv/SwaggerValidator.java:160-175 | with a table that never reintroduces a removed key, no object node anywhere in the rewritten tree keeps a `from` key, including subtrees just moved under their new key |
| SchemaTransform.TransformNodeOfFree | src/main/java/com/github/bjansen/ssv/SwaggerValidator.java:160-175 | a tree free of the table's `from` keys is left unchanged |
| SchemaTransform.TransformNodeIdempotent | src/main/java/com/github/bjansen/ssv/SwaggerValidator.java:160-175 | for a table that never renames into a key it removed earlier, rewriting a tree twice gives the same tree as rewriting it once |
| SchemaTransform.BuiltinLeavesNoVendorKeys | src/main/java/com/github/bjansen/ssv/SwaggerValidator.java:160-175 | with the built-in table, no object node of the rewritten tree holds any of the twelve `x-` keys |
| SchemaTransform.TransformDocument | src/main/java/com/github/bjansen/ssv/SwaggerValidator.java:150-158 | a document without a `definitions` member is returned unchanged; an object root keeps its keys, every member other than `definitions` is unchanged, and the definition names are kept |
| SchemaTransform.Transform | src/main/java/com/github/bjansen/ssv/SwaggerValidator.java:150-158 | rewriting the children of `definitions` in place computes `TransformDocument` |
| SchemaTransform.BuiltinCleansDefinitions | src/main/java/com/github/bjansen/ssv/SwaggerValidator.java:150-158 | with the built-in table, every definition of the rewritten document is free of the twelve `x-` keys and the definition names are kept |
| SchemaCaching.ErrorMessage | src/main/java/com/github/bjansen/ssv/SwaggerValidator.java:185-187 | an unresolved pointer is reported as `Unknown definition ` followed by the pointer |
| SchemaCaching.GetOrCompile | src/main/java/com/github/bjansen/ssv/SwaggerValidator.java:177-191 | no entry is replaced or removed; at most the requested key is added; a hit returns the stored schema; a miss that compiles returns that schema and stores it under the key; success holds exactly when the key is stored afterwards, with the returned schema; a failure leaves the cache unchanged; an unresolved pointer fails with `UnknownDefinition`, any other compile failure passes its message through as `ProcessingError` |
| SchemaCaching.GetOrCompileStable | src/main/java/com/github/bjansen/ssv/SwaggerValidator.java:182-190 | after a successful lookup, asking again returns the same schema and leaves the cache as it is |
| SchemaCaching.ServeKeepsEntries | src/main/java/com/github/bjansen/ssv/SwaggerValidator.java:26 | however many requests are served, every cached entry stays with its value |
| SchemaCaching.CachedKeyNeverRecompiled | src/main/java/com/github/bjansen/ssv/SwaggerValidator.java:182-190 | requests for a cached key never call the compiler |
| SchemaCaching.CompiledAtMostOnce | src/main/java/com/github/bjansen/ssv/SwaggerValidator.java:182-190 | a key whose compilation succeeds is compiled at most once, however often it is requested |
| SchemaCaching.SchemaCache.constructor | src/main/java/com/github/bjansen/ssv/SwaggerValidator.java:26 | the cache starts empty, and no compilation has been attempted |
| SchemaCaching.SchemaCache.GetSchema | src/main/java/com/github/bjansen/ssv/SwaggerValidator.java:177-191 | the result and new entries are those of `GetOrCompile`; the compiler is called only on a miss; the log of compiled keys gains the key exactly when a miss compiles successfully, so each key is compiled successfully at most once |
| SchemaCaching.RepeatedLookup | src/main/java/com/github/bjansen/ssv/SwaggerValidator.java:177-191 | two lookups of one key return the same result; after a success the compiler was called at most once; after a failure the entries are unchanged |
| Validator.SwaggerValidator.constructor | src/main/java/com/github/bjansen/ssv/SwaggerValidator.java:46-57 | the held spec is the given spec rewritten with the merged table, which is the built-in table when there is no custom table |
| Validator.SwaggerValidator.ValidateTree | src/main/java/com/github/bjansen/ssv/SwaggerValidator.java:138-140 | the engine's report for the definition's compiled schema; the cache's failure, or the engine's own `ProcessingException`, passed through; the cache changes as in `GetOrCompile`, the compiler is called only on a miss, and the log of compiled keys gains the key only when that miss compiles |
| Validator.SwaggerValidator.ValidateTreeShallow | src/main/java/com/github/bjansen/ssv/SwaggerValidator.java:124-126 | the same as `ValidateTree` with deep checking off, compile logs included |
| Validator.SwaggerValidator.ValidateText | src/main/java/com/github/bjansen/ssv/SwaggerValidator.java:111-119 | a null or empty payload fails with `EmptyPayload` and leaves the cache unchanged; a payload that does not parse fails with the parser's error and leaves the cache unchanged; otherwise the parsed tree, the missing node included, is validated without deep checking, with the lookup's or the engine's failure passed through, and the cache and its compile logs change as in `ValidateTree` |
| Validator.SwaggerValidator.ValidateTwice | src/main/java/com/github/bjansen/ssv/SwaggerValidator.java:177-191 | two validations against one definition call the compiler at most once when the definition compiles, add at most one entry, and the second runs the engine on the cached schema |
| Base64Attribute.MatchesIsWellFormed | src/main/java/com/github/bjansen/ssv/formats/Base64Attribute.java:31 | a string the base64 pattern accepts has a length divisible by four, only alphabet characters, and `=` only as trailing padding in the last two positions |
| Base64Attribute.WellFormedMatches | src/main/java/com/github/bjansen/ssv/formats/Base64Attribute.java:31 | every such string is accepted by the pattern |
| Base64Attribute.MatchesIffWellFormed | src/main/java/com/github/bjansen/ssv/formats/Base64Attribute.java:31 | the pattern accepts exactly the well-formed base64 strings |
| Base64Attribute.Findings | src/main/java/com/github/bjansen/ssv/formats/Base64Attribute.java:43-54 | nothing is reported for well-formed text; otherwise exactly one error keyed `err.format.base64.invalid` |
| Base64Attribute.FindingsFor | src/main/java/com/github/bjansen/ssv/formats/Base64Attribute.java:39-41 | the check contributes only under format `byte` and only for string instances; elsewhere it contributes nothing |
| Base64Attribute.Examples | src/main/java/com/github/bjansen/ssv/formats/Base64Attribute.java:31 | `""` and `////` are accepted; `not-base64!` draws one finding |
| Base64Attribute.Validate | src/main/java/com/github/bjansen/ssv/formats/Base64Attribute.java:43-54 | the report gains exactly the findings for the instance's text |
| Int32Attribute.CanConvertIffCastLossless | src/main/java/com/github/bjansen/ssv/formats/Int32Attribute.java:45 | an integer converts to `int` exactly when the 32-bit two's-complement cast keeps its value |
| Int32Attribute.Findings | src/main/java/com/github/bjansen/ssv/formats/Int32Attribute.java:40-50 | nothing is reported when the value fits 32 bits; otherwise exactly one warning keyed `warn.format.int32.overflow` with the instance as argument `value` |
| Int32Attribute.FindingsFor | src/main/java/com/github/bjansen/ssv/formats/Int32Attribute.java:35-37 | the check contributes only under format `int32` and only for integer instances; elsewhere it contributes nothing, and what it contributes is a warning |
| Int32Attribute.FindingsKeepSuccess | src/main/java/com/github/bjansen/ssv/formats/Int32Attribute.java:46-48 | the int32 check never changes whether a report is a success, because it only warns |
| Int32Attribute.Examples | src/main/java/com/github/bjansen/ssv/formats/Int32Attribute.java:45-49 | 9999 and both bounds of `int` draw nothing; one past either bound, and a 20-digit value, draw one warning and the report stays a success |
| Int32Attribute.Validate | src/main/java/com/github/bjansen/ssv/formats/Int32Attribute.java:40-50 | the report gains exactly the findings for the instance |

## Left out

- The engine itself is not modelled. Compiling a definition, the keyword and format validators it runs, and the effect of `deepCheck` on descending into invalid containers are all function parameters (`compile`, `run`).
- The "Payload is empty" finding that the engine reports for a missing tree (`JMissing`) is produced inside the engine. It is part of `run`, and no contract states what `run` reports for it.
- The engine's `ProcessingException`s are modelled by their message only. A compile failure other than an unresolved pointer is `Failed(message)`, and a failure while running a schema is a `Failure(message)` from `run`. Both reach the caller as `ProcessingError(message)`; the exception's cause chain is not modelled.
- Parsing payload and spec text is not modelled. The Jackson/YAML readers behind `forJsonSchema`, `forYamlSchema` and `validate(String, …)` are the `parse` parameter, or the caller supplies a tree.
- Member order in JSON objects is not modelled, because objects are maps. Order matters neither to Jackson's node equality nor to the result of the rewrite.
- Node identity and aliasing are not modelled. The source rewrites the caller's tree in place, so a caller holding the same nodes would see the change. The model returns a new tree, and the caller's tree is not modelled.
- The cache key is (spec tree, pointer) compared by value. The code builds the key with a `Pair` of the Jackson node, and Jackson node equality is structural. So the model keys the cache by value, as the code does, and not by node identity. Comparing numbers by value is coarser than Jackson's node equality: `JInt` does not tell `IntNode`, `LongNode` and `BigIntegerNode` apart, and `JDecimal` does not tell 1.0 from 1.00. So two specs that differ only in such number nodes share a cache entry in the model and not in the source.
- Thread safety of the process-wide cache is not modelled. The model is single-threaded.
- The fresh engine factory that `getSchema` builds per call (`SwaggerV20Library.schemaFactory`) is not modelled, because it has no effect visible in the result.
- `SwaggerV20Library`, the `double`, `float` and `int64` format attributes, and the Swagger keyword classes (`discriminator`, `readOnly`, `xml`, `externalDocs`, `example`) are not part of this model.
- Base64Attribute.Findings: the message's pointers into the instance and schema, which `newMsg` adds, are not modelled. Only the level and key are stated.
- Int32Attribute.Findings: the message's pointers into the instance and schema are not modelled. Only the level, key and `value` argument are stated.
- A table entry whose `from` equals its `to` deletes that key, because the code sets and then removes the same key. The model keeps this behaviour: `RenameEntry` always ensures `from` is gone.
