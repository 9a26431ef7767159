/** Findings of a validation run, as the engine's `ProcessingReport` collects
    them: an ordered list of messages, each with a level, a message key and
    named arguments. A report is successful while no message is at error level
    or above. */
module Reports {
  import opened JsonValues

  datatype LogLevel = Debug | Info | Warning | Error | Fatal

  /** Error and Fatal are the levels that make a report unsuccessful. */
  predicate IsFailureLevel(level: LogLevel)
  {
    level == Error || level == Fatal
  }

  datatype Message = Message(level: LogLevel, key: string, args: map<string, Json>)

  predicate IsSuccess(messages: seq<Message>)
  {
    forall i :: 0 <= i < |messages| ==> !IsFailureLevel(messages[i].level)
  }

  /** Appending findings below error level never turns a successful report
      into a failed one, nor a failed one into a successful one. */
  lemma AppendBelowErrorKeepsSuccess(messages: seq<Message>, extra: seq<Message>)
    requires forall i :: 0 <= i < |extra| ==> !IsFailureLevel(extra[i].level)
    ensures IsSuccess(messages + extra) == IsSuccess(messages)
  {
    if !IsSuccess(messages) {
      var i :| 0 <= i < |messages| && IsFailureLevel(messages[i].level);
      assert (messages + extra)[i] == messages[i];
    } else {
      forall i | 0 <= i < |messages + extra|
        ensures !IsFailureLevel((messages + extra)[i].level)
      {
        if i >= |messages| {
          assert (messages + extra)[i] == extra[i - |messages|];
        }
      }
    }
  }

  /** The mutable report a format attribute writes into. */
  class ProcessingReport {
    var messages: seq<Message>

    constructor ()
      ensures messages == []
    {
      messages := [];
    }

    /** Appends one message, as `report.warn` and `report.error` do. */
    method Log(message: Message)
      modifies this
      ensures messages == old(messages) + [message]
    {
      messages := messages + [message];
    }
  }
}
