/** The parsed JSON tree that the validator rewrites and validates: the values a
    Jackson `JsonNode` can hold. `JMissing` is Jackson's missing node, what
    `readTree` yields for text that holds no JSON value at all (such as a
    payload of blanks). Object members are a map: `JsonNode.equals` ignores
    member order, and so does the model.

    Numbers are compared by value, which is coarser than Jackson's node
    equality: `JInt` stands for `IntNode`, `LongNode` and `BigIntegerNode`
    alike, which Jackson tells apart, and `JDecimal` identifies decimals that
    differ only in scale (1.0 and 1.00), which `DecimalNode` tells apart. */
module JsonValues {

  datatype Json =
    | JNull
    | JMissing
    | JBool(b: bool)
    | JInt(n: int)
    | JDecimal(d: real)
    | JString(s: string)
    | JArray(items: seq<Json>)
    | JObject(fields: map<string, Json>)
}
