/** The field visitor of the capture hook (`TracingVisitor`): it is shown
    the named fields of one event, in order, and keeps the Debug rendering
    of the field called `message`. */
module Visitor {
  import opened LogRecord

  /** The name of the conventional field that carries an event's message. */
  const MessageField: string := "message"

  /** One named field of an event. `debug` is the value as `{:?}` renders
      it; the rendering itself happens outside this model. */
  datatype Field = Field(name: string, debug: string)

  /** What visiting one field does to the collected message. */
  function Step(message: Option<string>, f: Field): Option<string>
  {
    if f.name == MessageField then Some(f.debug) else message
  }

  /** The message collected after visiting `fields` in order, starting
      from `message`. */
  function Visited(message: Option<string>, fields: seq<Field>): Option<string>
    decreases |fields|
  {
    if fields == [] then message
    else Step(Visited(message, fields[..|fields| - 1]), fields[|fields| - 1])
  }

  /** `i` is the position of the last field named `message`. */
  ghost predicate IsLastMessage(fields: seq<Field>, i: int)
  {
    0 <= i < |fields| && fields[i].name == MessageField &&
    forall j :: i < j < |fields| ==> fields[j].name != MessageField
  }

  /** No field is named `message`. */
  ghost predicate NoMessageField(fields: seq<Field>)
  {
    forall j :: 0 <= j < |fields| ==> fields[j].name != MessageField
  }

  /** Fields with other names leave the collected message as it was. */
  lemma {:induction false} VisitedIgnoresOtherFields(message: Option<string>, fields: seq<Field>)
    requires NoMessageField(fields)
    ensures Visited(message, fields) == message
    decreases |fields|
  {
    if fields != [] {
      VisitedIgnoresOtherFields(message, fields[..|fields| - 1]);
    }
  }

  /** When several fields are named `message`, the last one wins, whatever
      was collected before. */
  lemma {:induction false} VisitedLastMessageWins(message: Option<string>, fields: seq<Field>, i: int)
    requires IsLastMessage(fields, i)
    ensures Visited(message, fields) == Some(fields[i].debug)
    decreases |fields|
  {
    var n := |fields|;
    if i < n - 1 {
      var init := fields[..n - 1];
      assert IsLastMessage(init, i) by {
        forall j | i < j < |init| ensures init[j].name != MessageField {
          assert init[j] == fields[j];
        }
      }
      VisitedLastMessageWins(message, init, i);
    }
  }

  /** The message collected from a fresh visitor is absent exactly when no
      field is named `message`. */
  lemma {:induction false} VisitedNoneIff(fields: seq<Field>)
    ensures Visited(None, fields).None? <==> NoMessageField(fields)
  {
    if NoMessageField(fields) {
      VisitedIgnoresOtherFields(None, fields);
    } else {
      var i :| 0 <= i < |fields| && fields[i].name == MessageField;
      LastMessageExists(fields, i);
      var k :| IsLastMessage(fields, k);
      VisitedLastMessageWins(None, fields, k);
    }
  }

  /** A field named `message` at `i` means some field is the last such one. */
  lemma {:induction false} LastMessageExists(fields: seq<Field>, i: int)
    requires 0 <= i < |fields| && fields[i].name == MessageField
    ensures exists k :: IsLastMessage(fields, k)
    decreases |fields| - i
  {
    if !IsLastMessage(fields, i) {
      var j :| i < j < |fields| && fields[j].name == MessageField;
      LastMessageExists(fields, j);
    }
  }

  /** The visitor of one event (`TracingVisitor`). It starts with no
      message; `record_debug` is its only way to change. */
  class TracingVisitor {
    var message: Option<string>

    constructor ()
      ensures message == None
    {
      message := None;
    }

    /** `record_debug`: keeps the rendering of a field named `message`,
        replacing any earlier one, and ignores every other field. */
    method RecordDebug(f: Field)
      modifies this
      ensures message == Step(old(message), f)
      ensures f.name == MessageField ==> message == Some(f.debug)
      ensures f.name != MessageField ==> message == old(message)
    {
      if f.name == MessageField {
        message := Some(f.debug);
      }
    }

    /** `event.record(&mut visitor)`: shows the visitor every field of the
        event, in order. */
    method Record(fields: seq<Field>)
      modifies this
      ensures message == Visited(old(message), fields)
    {
      var k := 0;
      while k < |fields|
        invariant 0 <= k <= |fields|
        invariant message == Visited(old(message), fields[..k])
      {
        assert fields[..k + 1][..k] == fields[..k];
        RecordDebug(fields[k]);
        k := k + 1;
      }
      assert fields[..k] == fields;
    }
  }
}
