/** The `int32` format attribute: an integer instance that does not fit a
    Java `int` draws one warning. It is a warning and not an error, so the
    report stays successful. */
module Int32Attribute {
  import opened JsonValues
  import opened Reports

  /** The format name the attribute is registered under; it applies to
      integer instances only. */
  const FormatName: string := "int32"

  const OverflowKey: string := "warn.format.int32.overflow"

  const IntMin: int := -0x8000_0000
  const IntMax: int := 0x7FFF_FFFF

  /** Jackson's `canConvertToInt` on an integral node. */
  predicate CanConvertToInt(n: int)
  {
    IntMin <= n <= IntMax
  }

  /** Java's narrowing cast to `int`: keep the low 32 bits, read them as a
      two's-complement number. */
  function ToInt32(n: int): (r: int)
    ensures IntMin <= r <= IntMax
  {
    (n - IntMin) % 0x1_0000_0000 + IntMin
  }

  /** A value converts to `int` exactly when the narrowing cast keeps it. */
  lemma CanConvertIffCastLossless(n: int)
    ensures CanConvertToInt(n) <==> ToInt32(n) == n
  {
    if CanConvertToInt(n) {
      assert 0 <= n - IntMin < 0x1_0000_0000;
    }
  }

  /** What `validate` appends for an integer instance: nothing when it
      converts, otherwise one warning keyed `warn.format.int32.overflow`
      carrying the instance as argument `value`. */
  function Findings(instance: Json): (r: seq<Message>)
    requires instance.JInt?
    ensures |r| <= 1
    ensures r == [] <==> ToInt32(instance.n) == instance.n
    ensures r != [] ==> r[0] == Message(Warning, OverflowKey, map["value" := instance])
  {
    CanConvertIffCastLossless(instance.n);
    if CanConvertToInt(instance.n) then []
    else [Message(Warning, OverflowKey, map["value" := instance])]
  }

  /** What the attribute contributes for an instance under a schema's
      `format`: it is registered under `int32` for integer instances, and
      contributes nothing under any other format or to any other instance. */
  function FindingsFor(format: string, instance: Json): (r: seq<Message>)
    ensures format == FormatName && instance.JInt? ==> r == Findings(instance)
    ensures format != FormatName || !instance.JInt? ==> r == []
    ensures r != [] ==> format == "int32" && r[0].level == Warning
  {
    if format == FormatName && instance.JInt? then Findings(instance) else []
  }

  /** The int32 check never changes whether a report is successful. */
  lemma FindingsKeepSuccess(messages: seq<Message>, instance: Json)
    requires instance.JInt?
    ensures IsSuccess(messages + Findings(instance)) == IsSuccess(messages)
  {
    AppendBelowErrorKeepsSuccess(messages, Findings(instance));
  }

  /** 9999 fits and draws nothing; a value past 2^31 - 1 draws one warning,
      and the report stays successful. */
  lemma Examples()
    ensures Findings(JInt(9999)) == []
    ensures Findings(JInt(IntMax)) == [] && Findings(JInt(IntMin)) == []
    ensures |Findings(JInt(IntMax + 1))| == 1 && |Findings(JInt(IntMin - 1))| == 1
    ensures var huge := JInt(99999999999999999999);
      |Findings(huge)| == 1 && Findings(huge)[0].level == Warning && IsSuccess(Findings(huge))
  {
  }

  /** `validate`: warn when the instance does not convert to `int`. The
      engine calls it for integer instances only. */
  method Validate(report: ProcessingReport, instance: Json)
    requires instance.JInt?
    modifies report
    ensures report.messages == old(report.messages) + Findings(instance)
  {
    if !CanConvertToInt(instance.n) {
      report.Log(Message(Warning, OverflowKey, map["value" := instance]));
    }
  }
}
