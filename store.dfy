/** The local entry store: the `entries` table (one row per submitted text,
    moving through pending / approved / scheduled / published / denied), the
    single-row post counter and the set of processed submission timestamps.
    Also the handful of direct SQL statements the web routes run on the same
    tables. */
module EntryStore {
  import opened Wrappers
  import opened Collections

  datatype Status = Pending | Approved | Scheduled | Published | Denied

  const AllStatuses: seq<Status> := [Pending, Approved, Scheduled, Published, Denied]

  /** One row of `entries`. Times are seconds on the local clock; a missing
      value is SQL NULL. */
  datatype Entry = Entry(
    timestamp: string,
    text: string,
    status: Status,
    postNumber: Option<int>,
    ref: Option<string>,
    time: Option<int>,
    approvedBy: Option<string>,
    approvedAt: Option<string>)

  /** A row as a query returns it: the id with the stored entry. */
  datatype Row = Row(id: nat, entry: Entry)

  type Table = map<nat, Entry>

  // ---------------------------------------------------------------------
  // Orderings of query results
  // ---------------------------------------------------------------------

  predicate TimestampLe(a: Row, b: Row) {
    TextLe(a.entry.timestamp, b.entry.timestamp)
  }

  /** `ORDER BY scheduled_time ASC`: NULL sorts first. */
  predicate TimeLe(a: Row, b: Row) {
    a.entry.time.None? || (b.entry.time.Some? && a.entry.time.value <= b.entry.time.value)
  }

  lemma {:induction false} TimestampOrder()
    ensures TotalPreorder(TimestampLe)
  {
    forall a: Row, b: Row ensures TimestampLe(a, b) || TimestampLe(b, a) {
      TextLeTotal(a.entry.timestamp, b.entry.timestamp);
    }
    forall a: Row, b: Row, c: Row | TimestampLe(a, b) && TimestampLe(b, c) ensures TimestampLe(a, c) {
      TextLeTransitive(a.entry.timestamp, b.entry.timestamp, c.entry.timestamp);
    }
  }

  lemma {:induction false} TimeOrder()
    ensures TotalPreorder(TimeLe)
  {
  }

  // ---------------------------------------------------------------------
  // Queries as functions of the table
  // ---------------------------------------------------------------------

  /** The rows with id below `n`, in id order (the table's scan order). */
  function RowsBelow(t: Table, n: nat): seq<Row>
  {
    if n == 0 then []
    else RowsBelow(t, n - 1) + (if n - 1 in t then [Row(n - 1, t[n - 1])] else [])
  }

  lemma {:induction false} RowsBelowMembers(t: Table, n: nat)
    ensures forall r :: r in RowsBelow(t, n) <==> r.id < n && r.id in t && r.entry == t[r.id]
    ensures forall i, j :: 0 <= i < j < |RowsBelow(t, n)| ==> RowsBelow(t, n)[i].id < RowsBelow(t, n)[j].id
  {
    if n > 0 {
      RowsBelowMembers(t, n - 1);
    }
  }

  function HasStatus(s: Status): Row -> bool {
    (r: Row) => r.entry.status == s
  }

  /** `get_pending_entries`: pending rows by submission timestamp. */
  function PendingRows(t: Table, nextId: nat): (rows: seq<Row>)
    ensures forall r :: r in rows <==> r.id < nextId && r.id in t && r.entry == t[r.id] && r.entry.status == Pending
    ensures SortedBy(rows, TimestampLe)
  {
    var pending := Filter(RowsBelow(t, nextId), HasStatus(Pending));
    RowsBelowMembers(t, nextId);
    FilterMembers(RowsBelow(t, nextId), HasStatus(Pending));
    SortMembers(pending, TimestampLe);
    TimestampOrder();
    SortSorted(pending, TimestampLe);
    SortBy(pending, TimestampLe)
  }

  /** `get_scheduled_entries`: scheduled rows by scheduled time, NULL first. */
  function ScheduledRows(t: Table, nextId: nat): (rows: seq<Row>)
    ensures forall r :: r in rows <==> r.id < nextId && r.id in t && r.entry == t[r.id] && r.entry.status == Scheduled
    ensures SortedBy(rows, TimeLe)
    ensures forall i, j :: 0 <= i < j < |rows| ==> rows[i].id != rows[j].id
  {
    var scheduled := Filter(RowsBelow(t, nextId), HasStatus(Scheduled));
    RowsBelowMembers(t, nextId);
    FilterMembers(RowsBelow(t, nextId), HasStatus(Scheduled));
    FilterDistinctIds(RowsBelow(t, nextId), HasStatus(Scheduled));
    SortMembers(scheduled, TimeLe);
    SortSorted(scheduled, TimeLe);
    SortKeepsDistinctIds(scheduled, TimeLe);
    SortBy(scheduled, TimeLe)
  }

  predicate DistinctIds(rows: seq<Row>) {
    forall i, j :: 0 <= i < j < |rows| ==> rows[i].id != rows[j].id
  }

  lemma {:induction false} FilterDistinctIds(rows: seq<Row>, keep: Row -> bool)
    requires forall i, j :: 0 <= i < j < |rows| ==> rows[i].id < rows[j].id
    ensures DistinctIds(Filter(rows, keep))
  {
    if rows != [] {
      var init := rows[..|rows| - 1];
      FilterDistinctIds(init, keep);
      FilterMembers(init, keep);
      var last := rows[|rows| - 1];
      forall r | r in Filter(init, keep) ensures r.id < last.id {
        var k :| 0 <= k < |init| && init[k] == r;
      }
    }
  }

  function RowId(r: Row): nat { r.id }

  lemma {:induction false} SortKeepsDistinctIds(s: seq<Row>, le: (Row, Row) -> bool)
    requires DistinctIds(s)
    ensures DistinctIds(SortBy(s, le))
  {
    assert DistinctBy(s, RowId);
    SortKeepsDistinct(s, le, RowId);
    assert DistinctBy(SortBy(s, le), RowId);
  }

  /** Number of entries with status `s`. */
  function StatusCount(t: Table, s: Status): nat
  {
    |IdsWithStatus(t, t.Keys, s)|
  }

  /** The ids among `ids` whose entry has status `s`. */
  function IdsWithStatus(t: Table, ids: set<nat>, s: Status): set<nat>
    requires ids <= t.Keys
  {
    set id | id in ids && t[id].status == s
  }

  // ---------------------------------------------------------------------
  // The store
  // ---------------------------------------------------------------------

  /** `INSERT OR IGNORE ... (1, 1)`: a fresh counter row starts at 1, an
      existing one keeps its value. */
  function InitialCounter(row: Option<int>): (n: int)
    ensures row.None? ==> n == 1
    ensures row.Some? ==> n == row.value
  {
    row.GetOr(1)
  }

  /** Opening the store a second time leaves the counter where the first
      opening (and any later update) put it. */
  lemma {:induction false} ReopenKeepsCounter(row: Option<int>)
    ensures InitialCounter(Some(InitialCounter(row))) == InitialCounter(row)
  {
  }

  class Store {
    var entries: Table
    var counter: int
    var nextId: nat
    var processed: set<string>

    /** Ids come from an autoincrement key: every id in use is below `nextId`. */
    ghost predicate Valid()
      reads this
    {
      nextId >= 1 && forall id :: id in entries ==> 1 <= id < nextId
    }

    /** Opens a store over persisted tables; `counterRow` is the counter row
        if one exists. */
    constructor Open(persisted: Table, persistedNext: nat, seen: set<string>, counterRow: Option<int>)
      requires persistedNext >= 1 && forall id :: id in persisted ==> 1 <= id < persistedNext
      ensures Valid()
      ensures entries == persisted && nextId == persistedNext && processed == seen
      ensures counter == InitialCounter(counterRow)
    {
      entries := persisted;
      nextId := persistedNext;
      processed := seen;
      counter := InitialCounter(counterRow);
    }

    /** `add_entry`: refuses a timestamp seen before, otherwise inserts one
        pending entry and records the timestamp. */
    method AddEntry(timestamp: string, text: string) returns (added: bool)
      requires Valid()
      modifies this
      ensures Valid()
      ensures added == (timestamp !in old(processed))
      ensures added ==> entries == old(entries)[old(nextId) := Entry(timestamp, text, Pending, None, None, None, None, None)]
      ensures added ==> nextId == old(nextId) + 1 && processed == old(processed) + {timestamp}
      ensures !added ==> entries == old(entries) && nextId == old(nextId) && processed == old(processed)
      ensures counter == old(counter)
      ensures timestamp in processed
    {
      if timestamp in processed {
        return false;
      }
      entries := entries[nextId := Entry(timestamp, text, Pending, None, None, None, None, None)];
      nextId := nextId + 1;
      processed := processed + {timestamp};
      added := true;
    }

    /** `get_pending_entries`. */
    function GetPendingEntries(): (rows: seq<Row>)
      reads this
      requires Valid()
      ensures forall r :: r in rows <==> r.id in entries && r.entry == entries[r.id] && r.entry.status == Pending
      ensures SortedBy(rows, TimestampLe)
    {
      PendingRows(entries, nextId)
    }

    /** `get_scheduled_entries`. */
    function GetScheduledEntries(): (rows: seq<Row>)
      reads this
      requires Valid()
      ensures forall r :: r in rows <==> r.id in entries && r.entry == entries[r.id] && r.entry.status == Scheduled
      ensures SortedBy(rows, TimeLe) && DistinctIds(rows)
    {
      ScheduledRows(entries, nextId)
    }

    /** `approve_entry`: approved, with the edited text, approver and time;
        an unknown id changes nothing. */
    method ApproveEntry(id: nat, editedText: string, approvedBy: string, now: string)
      requires Valid()
      modifies this`entries
      ensures Valid()
      ensures id in old(entries) ==> entries == old(entries)[id := old(entries)[id].(status := Approved, text := editedText, approvedBy := Some(approvedBy), approvedAt := Some(now))]
      ensures id !in old(entries) ==> entries == old(entries)
    {
      if id in entries {
        entries := entries[id := entries[id].(status := Approved, text := editedText, approvedBy := Some(approvedBy), approvedAt := Some(now))];
      }
    }

    /** `schedule_to_facebook`: scheduled, with the external ref and time. */
    method ScheduleToFacebook(id: nat, ref: string, time: int)
      requires Valid()
      modifies this`entries
      ensures Valid()
      ensures id in old(entries) ==> entries == old(entries)[id := old(entries)[id].(status := Scheduled, ref := Some(ref), time := Some(time))]
      ensures id !in old(entries) ==> entries == old(entries)
    {
      if id in entries {
        entries := entries[id := entries[id].(status := Scheduled, ref := Some(ref), time := Some(time))];
      }
    }

    /** `unschedule_entry` of the store: back to pending, ref and time
        cleared; the post number is left as it was. */
    method UnscheduleEntry(id: nat)
      requires Valid()
      modifies this`entries
      ensures Valid()
      ensures id in old(entries) ==> entries == old(entries)[id := old(entries)[id].(status := Pending, ref := None, time := None)]
      ensures id !in old(entries) ==> entries == old(entries)
    {
      if id in entries {
        entries := entries[id := entries[id].(status := Pending, ref := None, time := None)];
      }
    }

    /** `mark_as_published`. */
    method MarkAsPublished(id: nat)
      requires Valid()
      modifies this`entries
      ensures Valid()
      ensures id in old(entries) ==> entries == old(entries)[id := old(entries)[id].(status := Published)]
      ensures id !in old(entries) ==> entries == old(entries)
    {
      if id in entries {
        entries := entries[id := entries[id].(status := Published)];
      }
    }

    /** `deny_entry`: denied, recording who denied it in the approver column. */
    method DenyEntry(id: nat, deniedBy: string)
      requires Valid()
      modifies this`entries
      ensures Valid()
      ensures id in old(entries) ==> entries == old(entries)[id := old(entries)[id].(status := Denied, approvedBy := Some(deniedBy))]
      ensures id !in old(entries) ==> entries == old(entries)
    {
      if id in entries {
        entries := entries[id := entries[id].(status := Denied, approvedBy := Some(deniedBy))];
      }
    }

    /** `get_next_post_number`: returns the counter, then advances it. */
    method GetNextPostNumber() returns (n: int)
      modifies this`counter
      ensures n == old(counter) && counter == old(counter) + 1
    {
      n := counter;
      counter := counter + 1;
    }

    /** `get_current_post_number`: reads the counter and changes nothing. */
    method GetCurrentPostNumber() returns (n: int)
      ensures n == counter
    {
      n := counter;
    }

    /** `reset_post_number(number=1)`. */
    method ResetPostNumber(number: int := 1)
      modifies this`counter
      ensures counter == number
    {
      counter := number;
    }

    /** `get_statistics`: one count per status. */
    method GetStatistics() returns (stats: map<Status, nat>)
      ensures forall s :: s in stats
      ensures forall s :: stats[s] == StatusCount(entries, s)
    {
      stats := map[];
      for k := 0 to |AllStatuses|
        invariant forall s :: s in stats <==> s in AllStatuses[..k]
        invariant forall s :: s in stats ==> stats[s] == StatusCount(entries, s)
      {
        var s := AllStatuses[k];
        stats := stats[s := StatusCount(entries, s)];
      }
      assert AllStatuses[..|AllStatuses|] == AllStatuses;
      forall s ensures s in stats {
        assert s in AllStatuses by { assert s == Pending || s == Approved || s == Scheduled || s == Published || s == Denied; }
      }
    }

    // -------------------------------------------------------------------
    // Statements the web routes run directly on these tables
    // -------------------------------------------------------------------

    /** `DELETE FROM entries WHERE id = ?`. */
    method DeleteEntry(id: nat)
      requires Valid()
      modifies this`entries
      ensures Valid()
      ensures entries == old(entries) - {id}
    {
      entries := entries - {id};
    }

    /** `UPDATE post_numbers SET current_number = current_number - k`. */
    method LowerCounter(k: int)
      requires Valid()
      modifies this`counter
      ensures Valid()
      ensures counter == old(counter) - k
    {
      counter := counter - k;
    }

    /** The route's own unschedule: pending, with number, ref and time all
        cleared. */
    method ReleaseEntry(id: nat)
      requires Valid()
      modifies this`entries
      ensures Valid()
      ensures id in old(entries) ==> entries == old(entries)[id := old(entries)[id].(status := Pending, postNumber := None, ref := None, time := None)]
      ensures id !in old(entries) ==> entries == old(entries)
    {
      if id in entries {
        entries := entries[id := entries[id].(status := Pending, postNumber := None, ref := None, time := None)];
      }
    }

    /** `SET post_number = ?, scheduled_time = ? WHERE id = ?`. */
    method SetNumberAndTime(id: nat, number: Option<int>, time: Option<int>)
      requires Valid()
      modifies this`entries
      ensures Valid()
      ensures id in old(entries) ==> entries == old(entries)[id := old(entries)[id].(postNumber := number, time := time)]
      ensures id !in old(entries) ==> entries == old(entries)
    {
      if id in entries {
        entries := entries[id := entries[id].(postNumber := number, time := time)];
      }
    }

    /** `SET facebook_post_id = ?, scheduled_time = ?, text = ? WHERE id = ?`. */
    method SetExternal(id: nat, ref: string, time: int, text: string)
      requires Valid()
      modifies this`entries
      ensures Valid()
      ensures id in old(entries) ==> entries == old(entries)[id := old(entries)[id].(ref := Some(ref), time := Some(time), text := text)]
      ensures id !in old(entries) ==> entries == old(entries)
    {
      if id in entries {
        entries := entries[id := entries[id].(ref := Some(ref), time := Some(time), text := text)];
      }
    }

    /** `SET text = ? WHERE id = ?`. */
    method SetText(id: nat, text: string)
      requires Valid()
      modifies this`entries
      ensures Valid()
      ensures id in old(entries) ==> entries == old(entries)[id := old(entries)[id].(text := text)]
      ensures id !in old(entries) ==> entries == old(entries)
    {
      if id in entries {
        entries := entries[id := entries[id].(text := text)];
      }
    }

    /** `SET scheduled_time = ? WHERE post_number = ?`: every entry carrying
        the number, whatever its status. */
    method SetTimeByNumber(number: int, time: int)
      requires Valid()
      modifies this`entries
      ensures Valid()
      ensures entries == RetimeNumber(old(entries), number, time)
    {
      entries := RetimeNumber(entries, number, time);
    }

    /** The sync step's insert of a scheduled entry for an external post that
        has no local one. */
    method InsertScheduled(text: string, number: int, ref: string, time: int, now: string) returns (id: nat)
      requires Valid()
      modifies this`entries, this`nextId
      ensures Valid()
      ensures id == old(nextId) && nextId == old(nextId) + 1
      ensures entries == old(entries)[id := Entry(now, text, Scheduled, Some(number), Some(ref), Some(time), None, None)]
    {
      id := nextId;
      entries := entries[id := Entry(now, text, Scheduled, Some(number), Some(ref), Some(time), None, None)];
      nextId := nextId + 1;
    }
  }

  /** The table after `SET scheduled_time = time WHERE post_number = number`. */
  function RetimeNumber(t: Table, number: int, time: int): (r: Table)
    ensures r.Keys == t.Keys
    ensures forall id :: id in t && t[id].postNumber == Some(number) ==> r[id] == t[id].(time := Some(time))
    ensures forall id :: id in t && t[id].postNumber != Some(number) ==> r[id] == t[id]
  {
    map id | id in t :: if t[id].postNumber == Some(number) then t[id].(time := Some(time)) else t[id]
  }

  lemma {:induction false} CountWithout(t: Table, ids: set<nat>, k: nat, s: Status)
    requires ids <= t.Keys && k in ids
    ensures |IdsWithStatus(t, ids, s)| == |IdsWithStatus(t, ids - {k}, s)| + (if t[k].status == s then 1 else 0)
  {
    var all := IdsWithStatus(t, ids, s);
    var rest := IdsWithStatus(t, ids - {k}, s);
    if t[k].status == s {
      assert all == rest + {k};
      assert |rest + {k}| == |rest| + 1;
    } else {
      assert all == rest;
    }
  }

  lemma {:induction false} CountsCoverIds(t: Table, ids: set<nat>)
    requires ids <= t.Keys
    ensures |IdsWithStatus(t, ids, Pending)| + |IdsWithStatus(t, ids, Approved)| + |IdsWithStatus(t, ids, Scheduled)|
            + |IdsWithStatus(t, ids, Published)| + |IdsWithStatus(t, ids, Denied)| == |ids|
    decreases |ids|
  {
    if ids == {} {
      forall s: Status ensures IdsWithStatus(t, ids, s) == {} { }
    } else {
      var k :| k in ids;
      CountsCoverIds(t, ids - {k});
      CountWithout(t, ids, k, Pending);
      CountWithout(t, ids, k, Approved);
      CountWithout(t, ids, k, Scheduled);
      CountWithout(t, ids, k, Published);
      CountWithout(t, ids, k, Denied);
    }
  }

  /** The statuses partition the table: the five counts add up to the number
      of entries. */
  lemma {:induction false} StatisticsCoverTable(t: Table)
    ensures StatusCount(t, Pending) + StatusCount(t, Approved) + StatusCount(t, Scheduled)
            + StatusCount(t, Published) + StatusCount(t, Denied) == |t|
  {
    CountsCoverIds(t, t.Keys);
  }
}
