/** The bounded in-memory history of recent records (`LogCache`): new
    records are appended and, once the capacity is exceeded, the oldest
    surplus records are evicted from the front. */
module Cache {
  import opened LogRecord

  /** The hard-coded capacity of the cache. */
  const Capacity: nat := 1000

  function Min(a: nat, b: nat): nat { if a <= b then a else b }

  /** The most recent `min(|t|, Capacity)` records of `t`, in their order. */
  function Recent(t: seq<LogEntry>): seq<LogEntry>
  {
    t[|t| - Min(|t|, Capacity)..]
  }

  /** The cache after one insertion into a cache holding `s`: the most
      recent records of `s + [e]`. */
  function AfterInsert(s: seq<LogEntry>, e: LogEntry): (r: seq<LogEntry>)
    ensures |r| <= Capacity
    ensures |r| > 0 && r[|r| - 1] == e
    ensures |s| < Capacity ==> r == s + [e]
    ensures |s| >= Capacity ==> |r| == Capacity && r == s[|s| + 1 - Capacity..] + [e]
  {
    Recent(s + [e])
  }

  /** The records the cache holds after inserting `es`, one after another,
      into a cache holding `s`. */
  function InsertAll(s: seq<LogEntry>, es: seq<LogEntry>): seq<LogEntry>
    decreases |es|
  {
    if es == [] then s else AfterInsert(InsertAll(s, es[..|es| - 1]), es[|es| - 1])
  }

  /** Inserting into the recent part of a history keeps the same records
      as inserting into the whole history: eviction never loses a record
      that a later insertion would have kept. */
  lemma AfterInsertOfRecent(x: seq<LogEntry>, e: LogEntry)
    ensures AfterInsert(Recent(x), e) == Recent(x + [e])
  {
    var a := Recent(x);
    var lhs := Recent(a + [e]);
    var rhs := Recent(x + [e]);
    assert |lhs| == |rhs|;
    forall i | 0 <= i < |lhs| ensures lhs[i] == rhs[i] {
      var k := |a| + 1 - |lhs| + i;
      if k < |a| {
        assert (a + [e])[k] == a[k] == x[|x| - |a| + k];
        assert (x + [e])[|x| + 1 - |rhs| + i] == x[|x| - |a| + k];
      }
    }
  }

  /** Any run of insertions leaves the most recent `Capacity` records of
      the whole history, oldest first. A cache handed in longer than its
      capacity is trimmed by its first insertion; only an empty run leaves
      it as it was. */
  lemma {:induction false} InsertAllKeepsRecent(s: seq<LogEntry>, es: seq<LogEntry>)
    requires |s| <= Capacity || es != []
    ensures InsertAll(s, es) == Recent(s + es)
    decreases |es|
  {
    if es == [] {
      assert s + es == s;
    } else {
      var init, last := es[..|es| - 1], es[|es| - 1];
      assert s + init + [last] == s + es;
      if init == [] {
        assert s + init == s;
        calc {
          InsertAll(s, es);
          AfterInsert(InsertAll(s, init), last);
          AfterInsert(s, last);
        }
      } else {
        calc {
          InsertAll(s, es);
          AfterInsert(InsertAll(s, init), last);
          { InsertAllKeepsRecent(s, init); }
          AfterInsert(Recent(s + init), last);
          { AfterInsertOfRecent(s + init, last); }
          Recent(s + init + [last]);
        }
      }
    }
  }

  /** From an empty cache, `n` insertions leave exactly the last
      `min(n, Capacity)` inserted records, in insertion order. */
  lemma {:induction false} InsertAllFromEmpty(es: seq<LogEntry>)
    ensures InsertAll([], es) == es[|es| - Min(|es|, Capacity)..]
  {
    assert [] + es == es;
    InsertAllKeepsRecent([], es);
    assert InsertAll([], es) == Recent(es);
  }

  /** The shared cache (`Arc<RwLock<Vec<LogEntry>>>`), seen by one writer
      at a time. */
  class LogCache {
    var entries: seq<LogEntry>

    constructor ()
      ensures entries == []
    {
      entries := [];
    }

    /** The cache update of the capture hook: push the record, then, if
        the length exceeds the capacity, drain the first `len - Capacity`
        records. */
    method Insert(e: LogEntry)
      modifies this
      ensures entries == AfterInsert(old(entries), e)
      ensures |entries| <= Capacity && entries[|entries| - 1] == e
    {
      entries := entries + [e];
      if |entries| > Capacity {
        var len := |entries|;
        entries := entries[len - Capacity..];
      }
    }
  }
}
