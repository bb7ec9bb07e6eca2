/** The capture hook (`BroadcastLogLayer::on_event`): every event is turned
    into a record, handed to the broadcast sender and inserted into the
    shared cache. */
module Layer {
  import opened LogRecord
  import opened Visitor
  import opened Cache

  /** The record one event yields: metadata, the capture-time clock reading
      `now`, and the last `message` field or the placeholder. */
  function Capture(meta: Metadata, fields: seq<Field>, now: string): (e: LogEntry)
    ensures e.timestamp == now
    ensures e.level == LevelName(meta.level) && e.target == meta.target
    ensures NoMessageField(fields) ==> e.message == NoMessage
    ensures forall i :: IsLastMessage(fields, i) ==> e.message == fields[i].debug
  {
    VisitedNoneIff(fields);
    LastMessageDecides(fields);
    BuildEntry(meta, now, Visited(None, fields))
  }

  /** The collected message is the rendering of the last `message` field. */
  lemma LastMessageDecides(fields: seq<Field>)
    ensures forall i :: IsLastMessage(fields, i) ==> Visited(None, fields) == Some(fields[i].debug)
  {
    forall i | IsLastMessage(fields, i) ensures Visited(None, fields) == Some(fields[i].debug) {
      VisitedLastMessageWins(None, fields, i);
    }
  }

  /** The fields of an event decide only its message: the timestamp, level
      and target of a record never depend on them. */
  lemma CaptureFieldsOnlyDecideMessage(meta: Metadata, f1: seq<Field>, f2: seq<Field>, now: string)
    ensures Capture(meta, f1, now).(message := "") == Capture(meta, f2, now).(message := "")
  {
  }

  /** The placeholder appears exactly for events without a `message` field,
      unless a `message` field itself renders to the placeholder text. */
  lemma CapturePlaceholderIff(meta: Metadata, fields: seq<Field>, now: string)
    requires forall j :: 0 <= j < |fields| && fields[j].name == MessageField ==> fields[j].debug != NoMessage
    ensures Capture(meta, fields, now).message == NoMessage <==> NoMessageField(fields)
  {
    if !NoMessageField(fields) {
      var i :| 0 <= i < |fields| && fields[i].name == MessageField;
      LastMessageExists(fields, i);
    }
  }

  /** Records the capture layer handed out for a sequence of events. */
  function CaptureAll(events: seq<(Metadata, seq<Field>, string)>): (rs: seq<LogEntry>)
    ensures |rs| == |events|
    ensures forall k :: 0 <= k < |events| ==> rs[k] == Capture(events[k].0, events[k].1, events[k].2)
    decreases |events|
  {
    if events == [] then []
    else CaptureAll(events[..|events| - 1]) + [Capture(events[|events| - 1].0, events[|events| - 1].1, events[|events| - 1].2)]
  }

  /** The layer registered as an event sink. `sent` stands for the
      broadcast sender: it lists every record handed to `send`, oldest
      first; delivery to receivers is not modelled. */
  class BroadcastLogLayer {
    var sent: seq<LogEntry>
    const cache: LogCache

    constructor (cache: LogCache)
      ensures this.cache == cache && sent == []
    {
      this.cache := cache;
      sent := [];
    }

    /** `on_event`: visit the fields, build the record, send it, then
        insert it into the cache. The clock reading is the parameter `now`. */
    method OnEvent(meta: Metadata, fields: seq<Field>, now: string) returns (log: LogEntry)
      modifies this, cache
      ensures log == Capture(meta, fields, now)
      ensures sent == old(sent) + [log]
      ensures cache.entries == AfterInsert(old(cache.entries), log)
    {
      var visitor := new TracingVisitor();
      visitor.Record(fields);
      log := BuildEntry(meta, now, visitor.message);
      sent := sent + [log];
      cache.Insert(log);
    }
  }

  /** A run of events against a fresh cache: the cache ends up with the
      records of the last `min(n, Capacity)` events, oldest first, and the
      broadcast sender has seen all of them. */
  method CaptureRun(events: seq<(Metadata, seq<Field>, string)>) returns (layer: BroadcastLogLayer)
    ensures layer.sent == CaptureAll(events)
    ensures layer.cache.entries == Recent(CaptureAll(events))
  {
    var cache := new LogCache();
    layer := new BroadcastLogLayer(cache);
    var k := 0;
    while k < |events|
      invariant 0 <= k <= |events|
      invariant layer.cache == cache && fresh(cache) && fresh(layer)
      invariant layer.sent == CaptureAll(events[..k])
      invariant cache.entries == InsertAll([], CaptureAll(events[..k]))
    {
      assert events[..k + 1][..k] == events[..k];
      var before := layer.sent;
      var log := layer.OnEvent(events[k].0, events[k].1, events[k].2);
      assert CaptureAll(events[..k + 1]) == before + [log];
      assert CaptureAll(events[..k + 1])[..k] == before;
      k := k + 1;
    }
    assert events[..k] == events;
    InsertAllKeepsRecent([], CaptureAll(events));
    assert [] + CaptureAll(events) == CaptureAll(events);
  }
}
