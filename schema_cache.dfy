/** The compiled-schema cache behind `getSchema`: a map from (schema
    document, definition pointer) to the schema the engine compiled for it.
    An entry is added the first time a key is asked for and compilation
    succeeds; entries are never replaced or removed.

    The engine's compiler is a function parameter: it either yields a
    compiled schema, or reports that the pointer does not resolve in the
    document (`JsonReferenceException`), or fails otherwise. */
module SchemaCaching {
  import opened JsonValues
  import opened Wrappers

  type Key = (Json, string)

  datatype Compilation<S> = Compiled(schema: S) | UnresolvedReference | Failed(message: string)

  datatype CacheError = UnknownDefinition(pointer: string) | ProcessingError(message: string)

  /** The text of the exception the caller sees. */
  function ErrorMessage(e: CacheError): (m: string)
    ensures e.UnknownDefinition? ==>
      |m| >= |e.pointer| && m[|m| - |e.pointer|..] == e.pointer &&
      m[..|m| - |e.pointer|] == "Unknown definition "
  {
    match e
    case UnknownDefinition(pointer) => "Unknown definition " + pointer
    case ProcessingError(message) => message
  }

  /** One `getSchema` call on a cache whose entries are `entries`: the result
      and the entries afterwards. A hit returns the stored schema and compiles
      nothing; a miss compiles, and stores the schema only on success. */
  function GetOrCompile<S>(entries: map<Key, S>, key: Key, compile: (Json, string) -> Compilation<S>)
    : (res: (Result<S, CacheError>, map<Key, S>))
    ensures forall k :: k in entries ==> k in res.1 && res.1[k] == entries[k]
    ensures res.1.Keys <= entries.Keys + {key}
    ensures res.0.Success? <==> key in res.1
    ensures res.0.Success? ==> res.1[key] == res.0.value
    ensures key in entries ==> res.0 == Success(entries[key])
    ensures res.0.Failure? ==> res.1 == entries
    ensures key !in entries && compile(key.0, key.1).Compiled? ==>
      res == (Success(compile(key.0, key.1).schema), entries[key := compile(key.0, key.1).schema])
    ensures key !in entries && compile(key.0, key.1).UnresolvedReference? ==>
      res.0 == Failure(UnknownDefinition(key.1))
    ensures key !in entries && compile(key.0, key.1).Failed? ==>
      res.0 == Failure(ProcessingError(compile(key.0, key.1).message))
  {
    if key in entries then (Success(entries[key]), entries)
    else
      match compile(key.0, key.1)
      case Compiled(schema) => (Success(schema), entries[key := schema])
      case UnresolvedReference => (Failure(UnknownDefinition(key.1)), entries)
      case Failed(message) => (Failure(ProcessingError(message)), entries)
  }

  /** Asking again for a key that was just served returns the same schema and
      leaves the cache as it was. */
  lemma GetOrCompileStable<S>(entries: map<Key, S>, key: Key, compile: (Json, string) -> Compilation<S>)
    requires GetOrCompile(entries, key, compile).0.Success?
    ensures var (first, after) := GetOrCompile(entries, key, compile);
      GetOrCompile(after, key, compile) == (first, after)
  {
  }

  /** The entries after serving `requests` in order, and how many of those
      requests called the compiler. */
  function Serve<S>(entries: map<Key, S>, requests: seq<Key>, compile: (Json, string) -> Compilation<S>)
    : (map<Key, S>, nat)
    decreases |requests|
  {
    if requests == [] then (entries, 0)
    else
      var after := GetOrCompile(entries, requests[0], compile).1;
      var (final, calls) := Serve(after, requests[1..], compile);
      (final, calls + if requests[0] in entries then 0 else 1)
  }

  /** However many requests are served, no entry is replaced or removed. */
  lemma {:induction false} ServeKeepsEntries<S>(entries: map<Key, S>, requests: seq<Key>,
                                                compile: (Json, string) -> Compilation<S>)
    ensures var final := Serve(entries, requests, compile).0;
      forall k :: k in entries ==> k in final && final[k] == entries[k]
    decreases |requests|
  {
    if requests != [] {
      ServeKeepsEntries(GetOrCompile(entries, requests[0], compile).1, requests[1..], compile);
    }
  }

  /** `n` requests for one key. */
  function Repeat(key: Key, n: nat): (r: seq<Key>)
    ensures |r| == n && forall i :: 0 <= i < n ==> r[i] == key
  {
    seq(n, i => key)
  }

  /** Requests for a key already cached never call the compiler. */
  lemma {:induction false} CachedKeyNeverRecompiled<S>(entries: map<Key, S>, key: Key, n: nat,
                                                       compile: (Json, string) -> Compilation<S>)
    requires key in entries
    ensures Serve(entries, Repeat(key, n), compile).1 == 0
    decreases n
  {
    if n > 0 {
      assert Repeat(key, n)[1..] == Repeat(key, n - 1);
      CachedKeyNeverRecompiled(entries, key, n - 1, compile);
    }
  }

  /** A key whose compilation succeeds is compiled at most once, however
      often it is asked for. */
  lemma CompiledAtMostOnce<S>(entries: map<Key, S>, key: Key, n: nat,
                              compile: (Json, string) -> Compilation<S>)
    requires compile(key.0, key.1).Compiled?
    ensures Serve(entries, Repeat(key, n), compile).1 <= 1
  {
    if n > 0 {
      var after := GetOrCompile(entries, key, compile).1;
      assert Repeat(key, n)[1..] == Repeat(key, n - 1);
      CachedKeyNeverRecompiled(after, key, n - 1, compile);
    }
  }

  /** The cache shared by every validator. `compiled` records the keys whose
      compilation succeeded, in order: each key appears at most once, and the
      cached keys are exactly those. `attempts` records every call into the
      compiler. */
  class SchemaCache<S> {
    var entries: map<Key, S>
    const compile: (Json, string) -> Compilation<S>
    ghost var compiled: seq<Key>
    ghost var attempts: seq<Key>

    ghost predicate Valid()
      reads this
    {
      (forall i, j :: 0 <= i < j < |compiled| ==> compiled[i] != compiled[j]) &&
      (forall k :: k in entries <==> k in compiled)
    }

    constructor (compile: (Json, string) -> Compilation<S>)
      ensures Valid()
      ensures entries == map[] && this.compile == compile
      ensures compiled == [] && attempts == []
    {
      entries := map[];
      this.compile := compile;
      compiled := [];
      attempts := [];
    }

    /** `getSchema`: look the key up, compile on a miss, store on success. */
    method GetSchema(schemaObject: Json, pointer: string) returns (r: Result<S, CacheError>)
      requires Valid()
      modifies this
      ensures Valid()
      ensures (r, entries) == GetOrCompile(old(entries), (schemaObject, pointer), compile)
      ensures attempts == old(attempts) +
        (if (schemaObject, pointer) in old(entries) then [] else [(schemaObject, pointer)])
      ensures compiled == old(compiled) +
        (if (schemaObject, pointer) !in old(entries) && r.Success? then [(schemaObject, pointer)] else [])
    {
      var key := (schemaObject, pointer);
      if key !in entries {
        attempts := attempts + [key];
        var outcome := compile(schemaObject, pointer);
        match outcome {
          case Compiled(schema) =>
            entries := entries[key := schema];
            compiled := compiled + [key];
          case UnresolvedReference =>
            return Failure(UnknownDefinition(pointer));
          case Failed(message) =>
            return Failure(ProcessingError(message));
        }
      }
      r := Success(entries[key]);
    }
  }

  /** Two lookups of the same key: the second returns what the first did and
      does not call the compiler. */
  method RepeatedLookup<S>(cache: SchemaCache<S>, schemaObject: Json, pointer: string)
    returns (first: Result<S, CacheError>, second: Result<S, CacheError>)
    requires cache.Valid()
    modifies cache
    ensures cache.Valid()
    ensures second == first
    ensures first.Success? ==> |cache.attempts| <= |old(cache.attempts)| + 1
    ensures first.Failure? ==> cache.entries == old(cache.entries)
  {
    first := cache.GetSchema(schemaObject, pointer);
    ghost var between := cache.entries;
    second := cache.GetSchema(schemaObject, pointer);
    if first.Failure? {
      assert between == old(cache.entries);
    }
  }
}
