/** The rename tables of `SwaggerValidator`: the built-in `x-… → keyword` table
    and its merge with a caller-supplied table.

    A table is an ordered list of (from, to) entries with distinct `from` keys,
    as a Java `Map` iterated in its own order. */
module Transformations {

  type Table = seq<(string, string)>

  /** No key occurs twice, as in any Java map. */
  predicate DistinctKeys(t: Table)
  {
    forall i, j :: 0 <= i < j < |t| ==> t[i].0 != t[j].0
  }

  predicate HasKey(t: Table, k: string)
  {
    exists i :: 0 <= i < |t| && t[i].0 == k
  }

  /** The position of key `k` in `t`, or `|t|` when `k` is absent. */
  function KeyIndex(t: Table, k: string): (i: nat)
    ensures i <= |t|
    ensures i < |t| ==> t[i].0 == k
    ensures forall j :: 0 <= j < i ==> t[j].0 != k
  {
    if t == [] then 0
    else if t[0].0 == k then 0
    else 1 + KeyIndex(t[1..], k)
  }

  /** The value stored under `k`, or `default` when `k` is absent (`getOrDefault`). */
  function ValueOr(t: Table, k: string, default: string): string
  {
    var i := KeyIndex(t, k);
    if i < |t| then t[i].1 else default
  }

  /** The vendor-extension keywords and the JSON Schema keywords they stand
      for, in the order of `TRANSFORMATIONS`. */
  const Builtin: Table := [
    ("x-additionalItems", "additionalItems"),
    ("x-contains", "contains"),
    ("x-patternProperties", "patternProperties"),
    ("x-dependencies", "dependencies"),
    ("x-propertyNames", "propertyNames"),
    ("x-if", "if"),
    ("x-then", "then"),
    ("x-else", "else"),
    ("x-allOf", "allOf"),
    ("x-anyOf", "anyOf"),
    ("x-oneOf", "oneOf"),
    ("x-not", "not")
  ]

  /** `LinkedHashMap.put`: an existing key keeps its position and takes the new
      value; a new key is appended. */
  function Put(t: Table, k: string, v: string): Table
  {
    var i := KeyIndex(t, k);
    if i < |t| then t[i := (k, v)] else t + [(k, v)]
  }

  /** `LinkedHashMap.putAll`: every entry of `entries` put in order. */
  function PutAll(t: Table, entries: Table): Table
    decreases |entries|
  {
    if entries == [] then t
    else
      var last := entries[|entries| - 1];
      Put(PutAll(t, entries[..|entries| - 1]), last.0, last.1)
  }

  /** The table the constructor builds: the built-in table itself when the
      custom table is empty, otherwise a copy of the custom table into which
      every built-in entry is put. */
  function Merge(custom: Table, builtin: Table): Table
  {
    if custom == [] then builtin else PutAll(custom, builtin)
  }

  /** The custom entries as they stand after the merge: each keeps its
      position, and a built-in entry with the same key replaces its value. */
  function Overridden(custom: Table, builtin: Table): Table
  {
    seq(|custom|, i requires 0 <= i < |custom| =>
      (custom[i].0, ValueOr(builtin, custom[i].0, custom[i].1)))
  }

  /** The built-in entries whose key the custom table lacks, in built-in order. */
  function Appended(custom: Table, builtin: Table): (r: Table)
    ensures forall j :: 0 <= j < |r| ==> r[j] in builtin && !HasKey(custom, r[j].0)
    decreases |builtin|
  {
    if builtin == [] then []
    else
      var last := builtin[|builtin| - 1];
      Appended(custom, builtin[..|builtin| - 1]) + (if HasKey(custom, last.0) then [] else [last])
  }

  /** Looking a key up after appending one entry. */
  lemma {:induction false} KeyIndexSnoc(t: Table, e: (string, string), k: string)
    ensures KeyIndex(t + [e], k) ==
      if KeyIndex(t, k) < |t| then KeyIndex(t, k)
      else if e.0 == k then |t| else |t| + 1
  {
    if t != [] {
      assert (t + [e])[1..] == t[1..] + [e];
      KeyIndexSnoc(t[1..], e, k);
    }
  }

  /** `KeyIndex` finds the first occurrence, so any index holding `k` at which
      no earlier entry holds `k` is the one. */
  lemma KeyIndexAt(t: Table, k: string, i: nat)
    requires i < |t| && t[i].0 == k
    requires forall j :: 0 <= j < i ==> t[j].0 != k
    ensures KeyIndex(t, k) == i
  {
  }

  lemma AppendedSnoc(t: Table, prefix: Table, last: (string, string))
    ensures Appended(t, prefix + [last]) ==
      Appended(t, prefix) + (if HasKey(t, last.0) then [] else [last])
  {
    assert (prefix + [last])[..|prefix|] == prefix;
  }

  /** A lookup after appending an entry whose key is new. */
  lemma ValueOrSnoc(prefix: Table, last: (string, string), key: string, d: string)
    requires KeyIndex(prefix, last.0) == |prefix|
    ensures ValueOr(prefix + [last], key, d) == if key == last.0 then last.1 else ValueOr(prefix, key, d)
  {
    KeyIndexSnoc(prefix, last, key);
  }

  /** Putting one more entry with a new key changes the overridden custom
      entries exactly where their key is that entry's key. */
  lemma OverriddenSnoc(t: Table, prefix: Table, last: (string, string))
    requires KeyIndex(prefix, last.0) == |prefix|
    ensures |Overridden(t, prefix + [last])| == |t|
    ensures forall j :: 0 <= j < |t| ==>
      Overridden(t, prefix + [last])[j] ==
        if t[j].0 == last.0 then (t[j].0, last.1) else Overridden(t, prefix)[j]
  {
    forall j | 0 <= j < |t|
      ensures Overridden(t, prefix + [last])[j] ==
        if t[j].0 == last.0 then (t[j].0, last.1) else Overridden(t, prefix)[j]
    {
      ValueOrSnoc(prefix, last, t[j].0, t[j].1);
    }
  }

  /** `put` of a key found at position `i` replaces that entry. */
  lemma PutAt(s: Table, k: string, v: string, i: nat)
    requires i < |s| && s[i].0 == k
    requires forall j :: 0 <= j < i ==> s[j].0 != k
    ensures Put(s, k, v) == s[i := (k, v)]
  {
    KeyIndexAt(s, k, i);
  }

  lemma UpdateInFront<T>(a: seq<T>, b: seq<T>, i: nat, x: T)
    requires i < |a|
    ensures (a + b)[i := x] == a[i := x] + b
  {
  }

  /** With distinct keys in `t`, a new entry whose key sits at `i0` in `t`
      overrides the value there and nowhere else. */
  lemma OverriddenAtExisting(t: Table, prefix: Table, last: (string, string), i0: nat)
    requires DistinctKeys(t)
    requires KeyIndex(prefix, last.0) == |prefix|
    requires i0 < |t| && t[i0].0 == last.0
    ensures Overridden(t, prefix + [last]) == Overridden(t, prefix)[i0 := (last.0, last.1)]
  {
    OverriddenSnoc(t, prefix, last);
    forall j | 0 <= j < |t| && j != i0
      ensures t[j].0 != last.0
    {
      assert t[j].0 != t[i0].0;
    }
  }

  /** The `put` step of `PutAllShape` when the key is already in `t`. */
  lemma PutExisting(t: Table, prefix: Table, last: (string, string))
    requires DistinctKeys(t)
    requires KeyIndex(prefix, last.0) == |prefix|
    requires KeyIndex(t, last.0) < |t|
    ensures Put(Overridden(t, prefix) + Appended(t, prefix), last.0, last.1) ==
      Overridden(t, prefix + [last]) + Appended(t, prefix + [last])
  {
    var k, v := last.0, last.1;
    var i0 := KeyIndex(t, k);
    var over, app := Overridden(t, prefix), Appended(t, prefix);
    PutAt(over + app, k, v, i0);
    UpdateInFront(over, app, i0, (k, v));
    OverriddenAtExisting(t, prefix, last, i0);
    assert Appended(t, prefix + [last]) == app by {
      AppendedSnoc(t, prefix, last);
      assert t[i0].0 == k;
    }
  }

  /** A key new to both `t` and `prefix` is not in the table built from them. */
  lemma ShapeLacksKey(t: Table, prefix: Table, k: string)
    requires KeyIndex(prefix, k) == |prefix|
    requires KeyIndex(t, k) == |t|
    ensures KeyIndex(Overridden(t, prefix) + Appended(t, prefix), k) ==
      |Overridden(t, prefix) + Appended(t, prefix)|
  {
    var over, app := Overridden(t, prefix), Appended(t, prefix);
    var before := over + app;
    forall j | 0 <= j < |before|
      ensures before[j].0 != k
    {
      if j >= |t| {
        assert before[j] == app[j - |t|];
        assert app[j - |t|] in prefix;
      }
    }
  }

  /** The `put` step of `PutAllShape` when the key is new to `t`. */
  lemma PutNew(t: Table, prefix: Table, last: (string, string))
    requires KeyIndex(prefix, last.0) == |prefix|
    requires KeyIndex(t, last.0) == |t|
    ensures Put(Overridden(t, prefix) + Appended(t, prefix), last.0, last.1) ==
      Overridden(t, prefix + [last]) + Appended(t, prefix + [last])
  {
    var k := last.0;
    var over, app := Overridden(t, prefix), Appended(t, prefix);
    ShapeLacksKey(t, prefix, k);
    assert Overridden(t, prefix + [last]) == over by {
      OverriddenSnoc(t, prefix, last);
    }
    assert Appended(t, prefix + [last]) == app + [last] by {
      AppendedSnoc(t, prefix, last);
      assert !HasKey(t, k);
    }
  }

  /** `putAll` into a table leaves that table's entries in place, with the
      values of `entries` winning on shared keys, and appends the entries of
      `entries` whose keys were new, in their order. */
  lemma {:induction false} PutAllShape(t: Table, entries: Table)
    requires DistinctKeys(t) && DistinctKeys(entries)
    ensures PutAll(t, entries) == Overridden(t, entries) + Appended(t, entries)
    decreases |entries|
  {
    if entries == [] {
      assert Overridden(t, entries) == t;
    } else {
      var n := |entries| - 1;
      var prefix, last := entries[..n], entries[n];
      assert entries == prefix + [last];
      PutAllShape(t, prefix);
      assert KeyIndex(prefix, last.0) == |prefix|;
      if KeyIndex(t, last.0) < |t| {
        PutExisting(t, prefix, last);
      } else {
        PutNew(t, prefix, last);
      }
    }
  }

  /** The merged table: with no custom entries it is the built-in table; else
      the custom entries come first in their own order, a built-in value wins
      on every shared key, and the remaining built-in entries follow in
      built-in order. */
  lemma MergeShape(custom: Table, builtin: Table)
    requires DistinctKeys(custom) && DistinctKeys(builtin)
    ensures custom == [] ==> Merge(custom, builtin) == builtin
    ensures custom != [] ==>
      Merge(custom, builtin) == Overridden(custom, builtin) + Appended(custom, builtin)
  {
    if custom != [] {
      PutAllShape(custom, builtin);
    }
  }

  /** The constructor's table merge: `new LinkedHashMap<>(custom)` followed
      by `putAll` of the built-in table, or the built-in table itself when the
      custom table is empty. */
  method MergeTransformations(custom: Table) returns (merged: Table)
    ensures merged == Merge(custom, Builtin)
  {
    if |custom| == 0 {
      merged := Builtin;
    } else {
      merged := custom;
      for i := 0 to |Builtin|
        invariant merged == PutAll(custom, Builtin[..i])
      {
        assert Builtin[..i + 1][..i] == Builtin[..i];
        merged := Put(merged, Builtin[i].0, Builtin[i].1);
      }
      assert Builtin[..|Builtin|] == Builtin;
    }
  }

  lemma KeyIndexAbsent(t: Table, k: string)
    requires !HasKey(t, k)
    ensures KeyIndex(t, k) == |t|
  {
  }

  /** Custom entries whose keys the built-in table lacks keep their values. */
  lemma OverriddenUnchanged(custom: Table, builtin: Table)
    requires forall i :: 0 <= i < |custom| ==> !HasKey(builtin, custom[i].0)
    ensures Overridden(custom, builtin) == custom
  {
    forall i | 0 <= i < |custom|
      ensures Overridden(custom, builtin)[i] == custom[i]
    {
      KeyIndexAbsent(builtin, custom[i].0);
    }
  }

  /** When the custom table shares no key with the built-in table, every
      built-in entry is appended. */
  lemma {:induction false} AppendedAll(custom: Table, builtin: Table)
    requires forall j :: 0 <= j < |builtin| ==> !HasKey(custom, builtin[j].0)
    ensures Appended(custom, builtin) == builtin
    decreases |builtin|
  {
    if builtin != [] {
      var n := |builtin| - 1;
      var prefix, last := builtin[..n], builtin[n];
      assert builtin == prefix + [last];
      AppendedAll(custom, prefix);
      AppendedSnoc(custom, prefix, last);
    }
  }

  /** A custom table disjoint from the built-in one is merged into exactly
      the custom entries followed by the built-in entries. */
  lemma MergeDisjoint(custom: Table, builtin: Table)
    requires custom != []
    requires DistinctKeys(custom) && DistinctKeys(builtin)
    requires forall i :: 0 <= i < |custom| ==> !HasKey(builtin, custom[i].0)
    ensures Merge(custom, builtin) == custom + builtin
  {
    MergeShape(custom, builtin);
    OverriddenUnchanged(custom, builtin);
    AppendedAll(custom, builtin);
  }
}
