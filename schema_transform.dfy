/** The rewrite `SwaggerValidator` applies to a spec before compiling it:
    below the top-level `definitions` member, every object node has each
    `from` key of the table moved to its `to` key, table entry by table entry,
    and then its children are rewritten the same way.

    The source mutates Jackson nodes in place and returns the node it was
    given; a spec is a tree, so the model returns the rewritten tree as a
    value. */
module SchemaTransform {
  import opened JsonValues
  import opened Transformations

  /** One table entry applied to the members of an object node:
      `set(to, get(from))` followed by `remove(from)` when `from` is present. */
  function RenameEntry(fields: map<string, Json>, from: string, to: string): (r: map<string, Json>)
    ensures from !in r
    ensures from in fields && from != to ==> to in r && r[to] == fields[from]
    ensures from !in fields ==> r == fields
    ensures forall k :: k != from && k != to ==> (k in r <==> k in fields)
    ensures forall k :: k in r && k != to ==> k in fields && r[k] == fields[k]
  {
    if from in fields then fields[to := fields[from]] - {from} else fields
  }

  /** The whole table applied to the members of one object node, entry by
      entry in table order (`transformations.forEach`). Renaming only moves
      values between keys: every value of the result was a value before. */
  function RenameAll(fields: map<string, Json>, t: Table): (r: map<string, Json>)
    ensures forall k :: k in r ==> r[k] in fields.Values
    decreases |t|
  {
    if t == [] then fields
    else
      var last := t[|t| - 1];
      RenameEntry(RenameAll(fields, t[..|t| - 1]), last.0, last.1)
  }

  /** `transformRecursively`: rename the members of an object node, then
      rewrite every child (members of an object, elements of an array). */
  function TransformNode(node: Json, t: Table): (r: Json)
    ensures node.JObject? <==> r.JObject?
    ensures node.JObject? ==> r.fields.Keys == RenameAll(node.fields, t).Keys
    ensures node.JArray? <==> r.JArray?
    ensures node.JArray? ==> |r.items| == |node.items|
    ensures !node.JObject? && !node.JArray? ==> r == node
    decreases node
  {
    match node
    case JObject(fields) =>
      var renamed := RenameAll(fields, t);
      JObject(map k | k in renamed :: TransformNode(renamed[k], t))
    case JArray(items) =>
      JArray(seq(|items|, i requires 0 <= i < |items| => TransformNode(items[i], t)))
    case _ => node
  }

  /** Each child of `definitions` rewritten, as Jackson iterates a node: the
      member values of an object, the elements of an array, nothing for a
      scalar. The keys of `definitions` itself are never renamed. */
  function TransformChildren(container: Json, t: Table): Json
  {
    match container
    case JObject(fields) => JObject(map k | k in fields :: TransformNode(fields[k], t))
    case JArray(items) =>
      JArray(seq(|items|, i requires 0 <= i < |items| => TransformNode(items[i], t)))
    case _ => container
  }

  /** `transform`: only the `definitions` member of an object root is
      rewritten; any other document comes back unchanged. */
  function TransformDocument(schema: Json, t: Table): (r: Json)
    ensures !(schema.JObject? && "definitions" in schema.fields) ==> r == schema
    ensures schema.JObject? ==> r.JObject? && r.fields.Keys == schema.fields.Keys
    ensures schema.JObject? ==>
      forall k :: k in schema.fields && k != "definitions" ==> r.fields[k] == schema.fields[k]
    ensures schema.JObject? && "definitions" in schema.fields && schema.fields["definitions"].JObject? ==>
      r.fields["definitions"].JObject? &&
      r.fields["definitions"].fields.Keys == schema.fields["definitions"].fields.Keys
  {
    if schema.JObject? && "definitions" in schema.fields then
      JObject(schema.fields["definitions" := TransformChildren(schema.fields["definitions"], t)])
    else schema
  }

  /** No entry renames into a key that an earlier entry renames away, so a
      key once removed at a node is not brought back by a later entry. */
  predicate NoReintroduction(t: Table)
  {
    forall i, j :: 0 <= i < j < |t| ==> t[j].1 != t[i].0
  }

  function FromKeys(t: Table): set<string>
  {
    set i | 0 <= i < |t| :: t[i].0
  }

  /** No object node anywhere in `node` has a member named by `keys`. */
  predicate FreeOf(node: Json, keys: set<string>)
    decreases node
  {
    match node
    case JObject(fields) =>
      (forall k :: k in fields ==> k !in keys) &&
      (forall k :: k in fields ==> FreeOf(fields[k], keys))
    case JArray(items) => forall i :: 0 <= i < |items| ==> FreeOf(items[i], keys)
    case _ => true
  }

  /** After the table is applied at a node, none of its `from` keys is left. */
  lemma {:induction false} RenameAllRemovesFroms(fields: map<string, Json>, t: Table)
    requires NoReintroduction(t)
    ensures forall k :: k in RenameAll(fields, t) ==> k !in FromKeys(t)
    decreases |t|
  {
    if t != [] {
      var prefix, last := t[..|t| - 1], t[|t| - 1];
      assert NoReintroduction(prefix);
      RenameAllRemovesFroms(fields, prefix);
      forall k | k in RenameAll(fields, t)
        ensures k !in FromKeys(t)
      {
        forall i | 0 <= i < |t|
          ensures t[i].0 != k
        {
          if i < |t| - 1 {
            assert prefix[i].0 in FromKeys(prefix);
          }
        }
      }
    }
  }

  /** A node holding none of the table's `from` keys is left as it was. */
  lemma {:induction false} RenameAllAbsent(fields: map<string, Json>, t: Table)
    requires forall k :: k in fields ==> k !in FromKeys(t)
    ensures RenameAll(fields, t) == fields
    decreases |t|
  {
    if t != [] {
      var prefix := t[..|t| - 1];
      assert FromKeys(prefix) <= FromKeys(t);
      RenameAllAbsent(fields, prefix);
      assert t[|t| - 1].0 in FromKeys(t);
    }
  }

  /** Below a rewritten node, no object node keeps a key the table renames
      away: children are visited after the renaming, so a subtree just moved
      under its canonical key is rewritten too. */
  lemma {:induction false} TransformNodeIsFree(node: Json, t: Table)
    requires NoReintroduction(t)
    ensures FreeOf(TransformNode(node, t), FromKeys(t))
    decreases node
  {
    match node
    case JObject(fields) =>
      var renamed := RenameAll(fields, t);
      RenameAllRemovesFroms(fields, t);
      forall k | k in renamed
        ensures FreeOf(TransformNode(renamed[k], t), FromKeys(t))
      {
        TransformNodeIsFree(renamed[k], t);
      }
    case JArray(items) =>
      forall i | 0 <= i < |items|
        ensures FreeOf(TransformNode(items[i], t), FromKeys(t))
      {
        TransformNodeIsFree(items[i], t);
      }
    case _ =>
  }

  /** A tree already free of the table's `from` keys is left unchanged. */
  lemma {:induction false} TransformNodeOfFree(node: Json, t: Table)
    requires FreeOf(node, FromKeys(t))
    ensures TransformNode(node, t) == node
    decreases node
  {
    match node
    case JObject(fields) =>
      RenameAllAbsent(fields, t);
      forall k | k in fields
        ensures TransformNode(fields[k], t) == fields[k]
      {
        TransformNodeOfFree(fields[k], t);
      }
    case JArray(items) =>
      forall i | 0 <= i < |items|
        ensures TransformNode(items[i], t) == items[i]
      {
        TransformNodeOfFree(items[i], t);
      }
    case _ =>
  }

  /** Rewriting twice is rewriting once. */
  lemma TransformNodeIdempotent(node: Json, t: Table)
    requires NoReintroduction(t)
    ensures TransformNode(TransformNode(node, t), t) == TransformNode(node, t)
  {
    TransformNodeIsFree(node, t);
    TransformNodeOfFree(TransformNode(node, t), t);
  }

  /** A vendor-extension key: one that starts with `x-`. */
  predicate IsVendorKey(k: string)
  {
    |k| >= 2 && k[0] == 'x' && k[1] == '-'
  }

  /** A table whose entries all rename a vendor key to a non-vendor key never
      reintroduces a key it removed. */
  lemma VendorToStandardNoReintroduction(t: Table)
    requires forall i :: 0 <= i < |t| ==> IsVendorKey(t[i].0) && !IsVendorKey(t[i].1)
    ensures NoReintroduction(t)
  {
  }

  /** Each built-in entry renames an `x-` key to a keyword without it. */
  lemma BuiltinVendorToStandard()
    ensures forall i :: 0 <= i < |Builtin| ==> IsVendorKey(Builtin[i].0) && !IsVendorKey(Builtin[i].1)
  {
  }

  /** No two built-in entries share a key. */
  lemma BuiltinDistinct()
    ensures DistinctKeys(Builtin)
  {
  }

  /** The built-in table has distinct keys and never reintroduces a key. */
  lemma BuiltinWellFormed()
    ensures DistinctKeys(Builtin)
    ensures NoReintroduction(Builtin)
  {
    BuiltinDistinct();
    BuiltinVendorToStandard();
    VendorToStandardNoReintroduction(Builtin);
  }

  /** With the built-in table, no object node of a rewritten tree still holds
      any of the twelve `x-` keys. */
  lemma BuiltinLeavesNoVendorKeys(node: Json)
    ensures FreeOf(TransformNode(node, Builtin), FromKeys(Builtin))
  {
    BuiltinWellFormed();
    TransformNodeIsFree(node, Builtin);
  }

  /** Applying a table made of two parts is applying the first part, then
      the second. */
  lemma {:induction false} RenameAllConcat(fields: map<string, Json>, a: Table, b: Table)
    ensures RenameAll(fields, a + b) == RenameAll(RenameAll(fields, a), b)
    decreases |b|
  {
    if b == [] {
      assert a + b == a;
    } else {
      var n := |b| - 1;
      assert (a + b)[..|a + b| - 1] == a + b[..n];
      RenameAllConcat(fields, a, b[..n]);
    }
  }

  /** With a custom table that shares no key with the built-in one, each node
      is renamed by the custom entries first and then by the built-in ones in
      the same visit. */
  lemma CustomBeforeBuiltin(fields: map<string, Json>, custom: Table)
    requires custom != [] && DistinctKeys(custom)
    requires forall i :: 0 <= i < |custom| ==> !HasKey(Builtin, custom[i].0)
    ensures RenameAll(fields, Merge(custom, Builtin)) == RenameAll(RenameAll(fields, custom), Builtin)
  {
    BuiltinDistinct();
    MergeDisjoint(custom, Builtin);
    RenameAllConcat(fields, custom, Builtin);
  }

  /** A key that no entry renames from or into keeps its presence and its
      value. */
  lemma {:induction false} RenameAllUntouched(fields: map<string, Json>, t: Table, k: string)
    requires forall i :: 0 <= i < |t| ==> t[i].0 != k && t[i].1 != k
    ensures k in RenameAll(fields, t) <==> k in fields
    ensures k in fields ==> RenameAll(fields, t)[k] == fields[k]
    decreases |t|
  {
    if t != [] {
      RenameAllUntouched(fields, t[..|t| - 1], k);
    }
  }

  /** The first ten built-in entries leave an `x-oneOf` member where it is. */
  lemma BuiltinHeadKeepsOneOf(fields: map<string, Json>)
    requires "x-oneOf" in fields
    ensures var r := RenameAll(fields, Builtin[..10]);
      "x-oneOf" in r && r["x-oneOf"] == fields["x-oneOf"]
  {
    var head := Builtin[..10];
    assert forall i :: 0 <= i < |head| ==> head[i].0 != "x-oneOf" && head[i].1 != "x-oneOf";
    RenameAllUntouched(fields, head, "x-oneOf");
  }

  /** The last two built-in entries move an `x-oneOf` member to `oneOf`. */
  lemma BuiltinTailMovesOneOf(fields: map<string, Json>)
    requires "x-oneOf" in fields
    ensures var r := RenameAll(fields, Builtin[10..]);
      "oneOf" in r && r["oneOf"] == fields["x-oneOf"] && "x-oneOf" !in r
  {
    var tail := Builtin[10..];
    assert tail == [("x-oneOf", "oneOf"), ("x-not", "not")];
    assert tail[..|tail| - 1] == tail[..1] && tail[..1][..0] == [];
    var moved := RenameEntry(fields, "x-oneOf", "oneOf");
    assert RenameAll(fields, tail[..1]) == moved;
  }

  /** The built-in table moves an `x-oneOf` member to `oneOf`, whatever else
      the node holds: `oneOf` then has the value `x-oneOf` had, and `x-oneOf`
      is gone. */
  lemma BuiltinMovesOneOf(fields: map<string, Json>)
    requires "x-oneOf" in fields
    ensures var r := RenameAll(fields, Builtin);
      "oneOf" in r && r["oneOf"] == fields["x-oneOf"] && "x-oneOf" !in r
  {
    assert Builtin == Builtin[..10] + Builtin[10..];
    RenameAllConcat(fields, Builtin[..10], Builtin[10..]);
    BuiltinHeadKeepsOneOf(fields);
    BuiltinTailMovesOneOf(RenameAll(fields, Builtin[..10]));
  }

  lemma LowerCaseOneOfIsNotBuiltin()
    ensures !HasKey(Builtin, "x-oneof")
    ensures forall i :: 0 <= i < |Builtin| ==> Builtin[i].0 != "x-oneof" && Builtin[i].1 != "x-oneof"
  {
  }

  /** A custom rename of `x-oneof` into `x-oneOf` is carried on to `oneOf` by
      the built-in entry during the same node visit, whatever else the node
      holds: neither `x-oneof` nor `x-oneOf` is left. */
  lemma CustomRenameIntoVendorKey(fields: map<string, Json>)
    requires "x-oneof" in fields
    ensures var r := RenameAll(fields, Merge([("x-oneof", "x-oneOf")], Builtin));
      "oneOf" in r && r["oneOf"] == fields["x-oneof"] && "x-oneOf" !in r && "x-oneof" !in r
  {
    var custom: Table := [("x-oneof", "x-oneOf")];
    LowerCaseOneOfIsNotBuiltin();
    CustomBeforeBuiltin(fields, custom);
    var renamed := RenameAll(fields, custom);
    assert renamed == RenameEntry(fields, "x-oneof", "x-oneOf") by {
      assert custom[..0] == [];
    }
    BuiltinMovesOneOf(renamed);
    RenameAllUntouched(renamed, Builtin, "x-oneof");
  }

  /** With the built-in table, every definition of a rewritten document is
      free of the twelve `x-` keys, and the definition names are kept. */
  lemma BuiltinCleansDefinitions(schema: Json)
    requires schema.JObject? && "definitions" in schema.fields
    requires schema.fields["definitions"].JObject?
    ensures var defs := TransformDocument(schema, Builtin).fields["definitions"];
      defs.JObject? &&
      defs.fields.Keys == schema.fields["definitions"].fields.Keys &&
      forall name :: name in defs.fields ==> FreeOf(defs.fields[name], FromKeys(Builtin))
  {
    var original := schema.fields["definitions"].fields;
    forall name | name in original
      ensures FreeOf(TransformNode(original[name], Builtin), FromKeys(Builtin))
    {
      BuiltinLeavesNoVendorKeys(original[name]);
    }
  }

  /** The `forEach` over the table at one object node, done in place on the
      node's members. */
  method ApplyTransformations(fields: map<string, Json>, t: Table) returns (r: map<string, Json>)
    ensures r == RenameAll(fields, t)
  {
    r := fields;
    for i := 0 to |t|
      invariant r == RenameAll(fields, t[..i])
    {
      assert t[..i + 1][..i] == t[..i];
      var (from, to) := t[i];
      if from in r {
        r := r[to := r[from]];
        r := r - {from};
      }
    }
    assert t[..|t|] == t;
  }

  /** `transformRecursively` as the source runs it: rename at this node, then
      walk the children. */
  method TransformRecursively(node: Json, t: Table) returns (r: Json)
    ensures r == TransformNode(node, t)
    decreases node, 1
  {
    match node
    case JObject(fields) =>
      var renamed := ApplyTransformations(fields, t);
      var members := TransformMembers(renamed, t, node);
      r := JObject(members);
    case JArray(items) =>
      var elements := TransformElements(items, t, node);
      r := JArray(elements);
      assert elements == TransformNode(node, t).items;
    case _ =>
      r := node;
  }

  /** The loop over the member values of an object node; `parent` is the
      node they hang from. */
  method TransformMembers(fields: map<string, Json>, t: Table, ghost parent: Json)
    returns (r: map<string, Json>)
    requires forall k :: k in fields ==> fields[k] < parent
    ensures r == map k | k in fields :: TransformNode(fields[k], t)
    decreases parent, 0
  {
    r := map[];
    var todo := fields.Keys;
    while todo != {}
      invariant todo <= fields.Keys
      invariant r.Keys == fields.Keys - todo
      invariant forall k :: k in r ==> r[k] == TransformNode(fields[k], t)
      decreases todo
    {
      var k :| k in todo;
      var child := TransformRecursively(fields[k], t);
      r := r[k := child];
      todo := todo - {k};
    }
  }

  /** The loop over the elements of an array node; `parent` is the node
      they belong to. */
  method TransformElements(items: seq<Json>, t: Table, ghost parent: Json) returns (r: seq<Json>)
    requires forall i :: 0 <= i < |items| ==> items[i] < parent
    ensures |r| == |items|
    ensures forall i :: 0 <= i < |items| ==> r[i] == TransformNode(items[i], t)
    decreases parent, 0
  {
    r := [];
    for i := 0 to |items|
      invariant |r| == i
      invariant forall j :: 0 <= j < i ==> r[j] == TransformNode(items[j], t)
    {
      var child := TransformRecursively(items[i], t);
      r := r + [child];
    }
  }

  /** `transform`: the children of the top-level `definitions` member are
      rewritten; the rest of the document is left alone. */
  method Transform(schema: Json, t: Table) returns (r: Json)
    ensures r == TransformDocument(schema, t)
  {
    r := schema;
    if schema.JObject? && "definitions" in schema.fields {
      var definitions := schema.fields["definitions"];
      var rewritten := definitions;
      match definitions {
        case JObject(defs) =>
          var members := TransformMembers(defs, t, definitions);
          rewritten := JObject(members);
        case JArray(items) =>
          var elements := TransformElements(items, t, definitions);
          rewritten := JArray(elements);
          assert elements == TransformChildren(definitions, t).items;
        case _ =>
      }
      assert rewritten == TransformChildren(definitions, t);
      r := JObject(schema.fields["definitions" := rewritten]);
    }
  }
}
