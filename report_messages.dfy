/** Looking up message tags in the error lists of a detailed report, and the
    presence assertions built on that lookup. */
module ReportMessages {

  /** The cryptographic-constraint message tags. */
  datatype MessageTag = ASCCM_ANS_1 | ASCCM_ANS_2 | ASCCM_ANS_3 | ASCCM_ANS_4 | ASCCM_ANS_5

  /** The text a report stores for a tag; each tag has its own text. */
  function Message(tag: MessageTag): string
  {
    match tag
    case ASCCM_ANS_1 => "ASCCM_ANS_1"
    case ASCCM_ANS_2 => "ASCCM_ANS_2"
    case ASCCM_ANS_3 => "ASCCM_ANS_3"
    case ASCCM_ANS_4 => "ASCCM_ANS_4"
    case ASCCM_ANS_5 => "ASCCM_ANS_5"
  }

  /** One entry of a conclusion's error list: a name id and its message text. */
  datatype XmlName = XmlName(nameId: string, value: string)

  /** Some entry of `list` carries the text of `message`. */
  predicate HasMessage(list: seq<XmlName>, message: MessageTag)
  {
    exists i :: 0 <= i < |list| && list[i].value == Message(message)
  }

  /** Models `xmlListContainsMessage`: a linear search that stops at the
      first entry carrying the message's text. */
  method XmlListContainsMessage(list: seq<XmlName>, message: MessageTag) returns (found: bool)
    ensures found <==> HasMessage(list, message)
  {
    var i := 0;
    while i < |list|
      invariant 0 <= i <= |list|
      invariant forall j :: 0 <= j < i ==> list[j].value != Message(message)
    {
      if Message(message) == list[i].value {
        return true;
      }
      i := i + 1;
    }
    return false;
  }

  /** The condition `!present ^ contains` asserted by the three
      `check*ErrorPresence` helpers, on the error list of the building block
      they look at: it holds exactly when the message is in the list if and
      only if it was expected to be. */
  function ErrorPresenceHolds(errors: seq<XmlName>, message: MessageTag, present: bool): (holds: bool)
    ensures holds <==> (present <==> HasMessage(errors, message))
  {
    (!present) != HasMessage(errors, message)
  }

  /** Each tag has its own text, so finding one tag's text never reports
      another tag. */
  lemma MessagesDistinct(message: MessageTag, other: MessageTag)
    ensures Message(message) == Message(other) <==> message == other
  {
  }

  /** An error list that holds only another tag's text never answers for
      this tag: the lookup cannot confuse two tags. */
  lemma OtherTagNotFound(errors: seq<XmlName>, message: MessageTag, other: MessageTag)
    requires message != other
    requires forall i :: 0 <= i < |errors| ==> errors[i].value == Message(other)
    ensures !HasMessage(errors, message)
  {
    MessagesDistinct(message, other);
  }

  /** The `!present ^ contains` test of the `check*ErrorPresence` helpers,
      applied to a list of message texts. */
  predicate ListPresenceHolds(list: seq<string>, message: MessageTag, present: bool)
  {
    (!present) != (Message(message) in list)
  }

  /** `checkErrorMessagePresence`: the tag's text is among the warnings and
      among the errors of the first signature. It is the flag-style test with
      `present` true, applied to both lists. */
  predicate MessagePresenceHolds(warnings: seq<string>, errors: seq<string>, message: MessageTag): (holds: bool)
    ensures holds <==> ListPresenceHolds(warnings, message, true) && ListPresenceHolds(errors, message, true)
  {
    Message(message) in warnings && Message(message) in errors
  }

  /** `checkErrorMessageAbsence`: the tag's text is in neither list. It is
      the flag-style test with `present` false, applied to both lists. */
  predicate MessageAbsenceHolds(warnings: seq<string>, errors: seq<string>, message: MessageTag): (holds: bool)
    ensures holds <==> ListPresenceHolds(warnings, message, false) && ListPresenceHolds(errors, message, false)
  {
    Message(message) !in warnings && Message(message) !in errors
  }

  /** The presence and absence assertions never both hold, and on the same
      lists, exactly one of them holds when the tag is in both or neither. */
  lemma PresenceAbsenceExclusive(warnings: seq<string>, errors: seq<string>, message: MessageTag)
    ensures !(MessagePresenceHolds(warnings, errors, message) && MessageAbsenceHolds(warnings, errors, message))
    ensures (Message(message) in warnings <==> Message(message) in errors) ==>
      (MessagePresenceHolds(warnings, errors, message) || MessageAbsenceHolds(warnings, errors, message))
  {
  }
}
