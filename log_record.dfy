/** The normalized record the capture layer produces for every event
    (`LogEntry`), the severity levels it copies out of an event's metadata,
    and the construction of a record from an event. */
module LogRecord {

  datatype Option<+T> = None | Some(value: T)

  /** The severity levels an event can carry. */
  datatype Level = Trace | Debug | Info | Warn | Error

  /** The text a level renders to with `to_string()`. */
  function LevelName(l: Level): string
  {
    match l
    case Trace => "TRACE"
    case Debug => "DEBUG"
    case Info => "INFO"
    case Warn => "WARN"
    case Error => "ERROR"
  }

  /** Rendering a level keeps levels apart: the `level` text of a record
      tells which severity the event had. */
  lemma LevelNameInjective(a: Level, b: Level)
    ensures LevelName(a) == LevelName(b) <==> a == b
  {
    if a != b {
      // The five names start with five different letters.
      assert LevelName(a)[0] != LevelName(b)[0];
    }
  }

  /** The metadata of an event that a record copies: its level and its
      target (the module path that emitted it). */
  datatype Metadata = Metadata(level: Level, target: string)

  /** One captured event, as stored in the cache, broadcast and persisted.
      All four fields are text. */
  datatype LogEntry = LogEntry(timestamp: string, level: string, target: string, message: string)

  /** The placeholder message of an event that carried no `message` field. */
  const NoMessage: string := "<no message>"

  /** Builds the record of one event from its metadata, the capture-time
      clock reading `now` (already rendered as RFC 3339 text) and the message
      the field visitor collected, if any. */
  function BuildEntry(meta: Metadata, now: string, message: Option<string>): (e: LogEntry)
    ensures e.timestamp == now
    ensures e.level == LevelName(meta.level) && e.target == meta.target
    ensures message.Some? ==> e.message == message.value
    ensures message.None? ==> e.message == NoMessage
  {
    LogEntry(
      now,
      LevelName(meta.level),
      meta.target,
      match message
      case Some(m) => m
      case None => NoMessage)
  }

  /** Two events whose records are equal had the same level and target:
      nothing of the metadata is lost in the record. */
  lemma BuildEntryKeepsMetadata(m1: Metadata, m2: Metadata, now1: string, now2: string,
                                msg1: Option<string>, msg2: Option<string>)
    requires BuildEntry(m1, now1, msg1) == BuildEntry(m2, now2, msg2)
    ensures m1 == m2 && now1 == now2
  {
    LevelNameInjective(m1.level, m2.level);
  }
}
