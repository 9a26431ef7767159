/** The `byte` format attribute: a string instance must be base64 text over
    the alphabet of section 4 of RFC 4648, padded with `=`. The source checks
    it with the regular expression
    `^(?:[A-Za-z0-9+/]{4})*(?:[A-Za-z0-9+/]{2}==|[A-Za-z0-9+/]{3}=)?$`;
    `Matches` follows that grammar, and `WellFormed` says the same thing by
    length and position. */
module Base64Attribute {
  import opened JsonValues
  import opened Reports

  /** The format name the attribute is registered under; it applies to
      string instances only. */
  const FormatName: string := "byte"

  const InvalidKey: string := "err.format.base64.invalid"

  /** `[A-Za-z0-9+/]` */
  predicate IsAlphabet(c: char)
  {
    ('A' <= c <= 'Z') || ('a' <= c <= 'z') || ('0' <= c <= '9') || c == '+' || c == '/'
  }

  predicate AllAlphabet(s: string)
  {
    forall i :: 0 <= i < |s| ==> IsAlphabet(s[i])
  }

  /** `[A-Za-z0-9+/]{2}==|[A-Za-z0-9+/]{3}=` */
  predicate PaddedGroup(s: string)
  {
    |s| == 4 &&
    ((AllAlphabet(s[..2]) && s[2] == '=' && s[3] == '=') ||
     (AllAlphabet(s[..3]) && s[3] == '='))
  }

  /** The whole regular expression: groups of four alphabet characters,
      then at most one padded group, and nothing after it. */
  predicate Matches(s: string)
    decreases |s|
  {
    s == [] ||
    PaddedGroup(s) ||
    (|s| >= 4 && AllAlphabet(s[..4]) && Matches(s[4..]))
  }

  /** The length is a multiple of four, every character is in the alphabet
      or is `=`, and a `=` stands only in the last two positions with nothing
      but `=` after it. */
  predicate WellFormed(s: string)
  {
    |s| % 4 == 0 &&
    forall i :: 0 <= i < |s| ==>
      if s[i] == '=' then i >= |s| - 2 && s[|s| - 1] == '=' else IsAlphabet(s[i])
  }

  lemma {:induction false} MatchesIsWellFormed(s: string)
    requires Matches(s)
    ensures WellFormed(s)
    decreases |s|
  {
    if s != [] && !PaddedGroup(s) {
      var rest := s[4..];
      MatchesIsWellFormed(rest);
      forall i | 0 <= i < |s|
        ensures if s[i] == '=' then i >= |s| - 2 && s[|s| - 1] == '=' else IsAlphabet(s[i])
      {
        if i < 4 {
          assert s[..4][i] == s[i];
        } else {
          assert s[i] == rest[i - 4];
          assert s[|s| - 1] == rest[|rest| - 1];
        }
      }
    }
  }

  lemma {:induction false} WellFormedMatches(s: string)
    requires WellFormed(s)
    ensures Matches(s)
    decreases |s|
  {
    if s != [] {
      if |s| == 4 && s[3] == '=' {
        if s[2] == '=' {
          assert AllAlphabet(s[..2]) by {
            forall i | 0 <= i < 2 ensures IsAlphabet(s[..2][i]) {
              assert s[..2][i] == s[i];
            }
          }
        } else {
          assert AllAlphabet(s[..3]) by {
            forall i | 0 <= i < 3 ensures IsAlphabet(s[..3][i]) {
              assert s[..3][i] == s[i];
            }
          }
        }
        assert PaddedGroup(s);
      } else {
        assert AllAlphabet(s[..4]) by {
          forall i | 0 <= i < 4 ensures IsAlphabet(s[..4][i]) {
            assert s[..4][i] == s[i];
          }
        }
        var rest := s[4..];
        forall i | 0 <= i < |rest|
          ensures if rest[i] == '=' then i >= |rest| - 2 && rest[|rest| - 1] == '=' else IsAlphabet(rest[i])
        {
          assert rest[i] == s[i + 4];
        }
        WellFormedMatches(rest);
      }
    }
  }

  /** The regular expression accepts exactly the well-formed strings. */
  lemma MatchesIffWellFormed(s: string)
    ensures Matches(s) <==> WellFormed(s)
  {
    if Matches(s) {
      MatchesIsWellFormed(s);
    }
    if WellFormed(s) {
      WellFormedMatches(s);
    }
  }

  /** What `validate` appends to the report for a string value: nothing when
      it matches, one error keyed `err.format.base64.invalid` otherwise. */
  function Findings(value: string): (r: seq<Message>)
    ensures |r| <= 1
    ensures r == [] <==> WellFormed(value)
    ensures r != [] ==> r[0].level == Error && r[0].key == InvalidKey
  {
    MatchesIffWellFormed(value);
    if Matches(value) then [] else [Message(Error, InvalidKey, map[])]
  }

  /** What the attribute contributes for an instance under a schema's
      `format`: it is registered under `byte` for string instances, and
      contributes nothing under any other format or to any other instance. */
  function FindingsFor(format: string, instance: Json): (r: seq<Message>)
    ensures format == FormatName && instance.JString? ==> r == Findings(instance.s)
    ensures format != FormatName || !instance.JString? ==> r == []
    ensures r != [] ==> format == "byte"
  {
    if format == FormatName && instance.JString? then Findings(instance.s) else []
  }

  /** The empty string and `////` are accepted; `not-base64!` is not. */
  lemma Examples()
    ensures Findings("") == []
    ensures Findings("////") == []
    ensures |Findings("not-base64!")| == 1
  {
    assert AllAlphabet("////"[..4]);
    assert "////"[4..] == [];
  }

  /** `validate`: match the instance's text, report an error on mismatch.
      The engine calls it for string instances only. */
  method Validate(report: ProcessingReport, instance: Json)
    requires instance.JString?
    modifies report
    ensures report.messages == old(report.messages) + Findings(instance.s)
  {
    if !Matches(instance.s) {
      report.Log(Message(Error, InvalidKey, map[]));
    }
  }
}
