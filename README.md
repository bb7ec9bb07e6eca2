# Bounded log capture layer — a Dafny model

This project models the per-event capture step of the `listen-tracing`
crate: the tracing layer `BroadcastLogLayer` that turns every emitted event
into a `LogEntry` record, hands it to a broadcast sender, and appends it to a
shared in-memory cache. The cache keeps at most 1000 records and evicts the
oldest first.

- `log_record.dfy` (module `LogRecord`): the `LogEntry` record, the severity
  levels and their text, the event metadata, and `BuildEntry`, the record
  construction of `on_event`.
- `visitor.dfy` (module `Visitor`): the field visitor `TracingVisitor`, whose
  `record_debug` keeps only the field named `message`. `Visited` specifies
  what a whole visit collects. The lemmas say that the last `message` field
  wins and that other fields change nothing.
- `cache.dfy` (module `Cache`): the capacity 1000 and the class `LogCache`.
  Its `Insert` pushes a record and then drains the surplus from the front.
  It is proved against `Recent`, the reference definition "the last
  `min(n, 1000)` records". The lemmas show that any run of insertions from
  an empty cache leaves exactly those records.
- `layer.dfy` (module `Layer`): the class `BroadcastLogLayer` with `OnEvent`.
  `Capture` states the record an event yields. `CaptureRun` feeds a run of
  events to a fresh layer and states the resulting cache and broadcast history.

External inputs are parameters:
- The wall-clock reading `Utc::now().to_rfc3339()` is the parameter `now`.
- Each field's `{:?}` rendering is the `debug` text of a `Field`. The tracing
  library renders a field of any type through `record_debug`.
- A level's `to_string()` is provided by the tracing library, outside this
  crate. `LevelName` is a helper that stands for it, giving the library's
  upper-case level names. `LevelNameInjective` states what the record relies
  on: distinct levels give distinct texts.

The `tokio::spawn` task and the `RwLock` are stripped away. The cache update
runs sequentially, immediately after the send, as one task would run it
with no other writer.

## Model

| member | source | states |
|---|---|---|
| `LogRecord.LevelNameInjective` | src/lib.rs:73 | two levels render to the same `level` text exactly when they are the same level |
| `LogRecord.BuildEntry` | src/lib.rs:71-76 | the record takes the clock reading as timestamp and copies level and target from the metadata; its message is the visitor's message if one was recorded, otherwise exactly `"<no message>"` |
| `LogRecord.BuildEntryKeepsMetadata` | src/lib.rs:72-74 | equal records come from equal metadata and equal clock readings: nothing of level, target or timestamp is lost |
| `Visitor.TracingVisitor.constructor` | src/lib.rs:106-109 | a default visitor has recorded no message |
| `Visitor.TracingVisitor.RecordDebug` | src/lib.rs:112-116 | a field named `message` sets the message to its rendering and replaces any earlier one; any other field leaves the visitor unchanged |
| `Visitor.TracingVisitor.Record` | src/lib.rs:67-68 | visiting the event's fields in order leaves the message `Visited` specifies |
| `Visitor.VisitedIgnoresOtherFields` | src/lib.rs:113-115 | fields not named `message` leave the collected message as it was |
| `Visitor.VisitedLastMessageWins` | src/lib.rs:113-114 | when `message` appears several times, the rendering of the last one is kept, whatever came before |
| `Visitor.VisitedNoneIff` | src/lib.rs:108-116 | a fresh visitor ends with no message exactly when no field is named `message` |
| `Cache.AfterInsert` | src/lib.rs:88-92 | after one insertion the cache holds at most 1000 records and the new record is last. Below capacity nothing is evicted and the cache is `old + [entry]`. At or above capacity exactly 1000 remain: the surplus oldest are dropped, the rest keep their order |
| `Cache.AfterInsertOfRecent` | src/lib.rs:88-92 | inserting into the retained part of a history keeps exactly what inserting into the whole history would keep, so eviction never drops a record a later state still needs |
| `Cache.InsertAllKeepsRecent` | src/lib.rs:86-93 | any run of insertions leaves the last 1000 records of the whole history, oldest first. This holds for a cache of any starting length when at least one record is inserted, so a caller-supplied cache longer than 1000 is trimmed by its first insertion |
| `Cache.InsertAllFromEmpty` | src/lib.rs:86-93 | from an empty cache, `n` insertions leave exactly the last `min(n, 1000)` inserted records in insertion order |
| `Cache.LogCache.constructor` | src/lib.rs:41 | a new cache is empty |
| `Cache.LogCache.Insert` | src/lib.rs:86-93 | push then drain of the surplus leaves the cache equal to `AfterInsert` of its old contents: at most 1000 records, the new one last |
| `Layer.Capture` | src/lib.rs:66-76 | an event's record has the clock reading as timestamp, the metadata's level and target, and the rendering of the last `message` field; with no such field, the placeholder |
| `Layer.CaptureFieldsOnlyDecideMessage` | src/lib.rs:72-75 | timestamp, level and target never depend on the event's fields |
| `Layer.CapturePlaceholderIff` | src/lib.rs:75 | when no `message` field renders to the placeholder text, the placeholder appears exactly for events without a `message` field |
| `Layer.CaptureAll` | src/lib.rs:66-76 | a run of events yields one record per event, in order, each the `Capture` of its event |
| `Layer.BroadcastLogLayer.constructor` | src/lib.rs:51-52 | the layer holds the given shared cache and has sent nothing |
| `Layer.BroadcastLogLayer.OnEvent` | src/lib.rs:66-93 | the returned record is `Capture` of the event. It is appended to the broadcast history, and the cache becomes `AfterInsert` of its old contents with that record |
| `Layer.CaptureRun` | src/lib.rs:66-93 | after a run of events on a fresh layer, the sender has seen every record in emission order. The cache holds the records of the last `min(n, 1000)` events, oldest first |

## Left out

- `setup_tracing` and `setup_tracing_with_broadcast` (src/lib.rs:10-30, 51-58): environment-driven filter and output configuration and global subscriber registration; no algorithmic content.
- The `tokio::spawn` task and the `RwLock` write lock (src/lib.rs:85-87): concurrency is not modelled. The cache update runs in place of the task, in emission order. Interleavings between tasks of different events are not captured.
- `Layer.BroadcastLogLayer.OnEvent` assumes every event is emitted inside a Tokio runtime. Outside one, `tokio::spawn` (src/lib.rs:85) panics after the send (line 79) and before the cache update. The panic reaches the emitting thread and the cache is left unchanged. The model always completes and always updates the cache.
- Persistence to `logs.jsonl` (src/lib.rs:95-101): file I/O and a foreign JSON serializer. Open and write failures are swallowed there, so nothing of it reaches the cache or the caller.
- The broadcast send (src/lib.rs:79): only the fact that the record was handed to the sender is kept (`sent`). Receivers, lagging and the discarded send result are not modelled.
- `Utc::now().to_rfc3339()` and `format!("{:?}", value)` (src/lib.rs:72, 114): foreign clock and formatting, taken as inputs.
- `LogQuery` (src/lib.rs:43-49): a plain deserializable struct with no filtering or pagination code in the crate, so there is no query engine to model.
- src/tracing_utils.rs: display helpers and a macro for emitting key/value fields. They are not part of this model.
- Lengths are unbounded integers rather than `usize`. The cache is supplied by the caller (src/lib.rs:41, 51) and may start at any length, since other holders of the shared handle can push to it. Its first insertion trims it to 1000 (`Cache.AfterInsert`, `Cache.InsertAllKeepsRecent`). Once the cache is within capacity, its length before a drain is at most 1001, far below any `usize` limit. Overflow of `usize` for a caller-built vector is not modelled.
