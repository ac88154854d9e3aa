/** The background jobs: the daily sheet sync, which adds the fetched
    submissions to the store and may raise the pending-threshold alert, and
    the hourly empty-window check. The sheet, the configuration file and the
    notification channel are outside the model: what they deliver is a
    parameter, what would be sent is the result. */
module BackgroundJobs {
  import opened Wrappers
  import opened EntryStore
  import opened Slots

  /** One submission as the sheet returns it. */
  datatype SheetEntry = SheetEntry(timestamp: string, text: string)

  /** The two settings the jobs read from the configuration file; a missing
      key is None. */
  datatype JobsConfig = JobsConfig(notificationsEnabled: Option<bool>, pendingThreshold: Option<int>)

  /** `send_pending_threshold_alert(pending_count, next_empty)`. */
  datatype ThresholdAlert = ThresholdAlert(pending: nat, nextEmpty: Option<int>)

  /** `send_empty_window_alert(next_empty, pending_count)`. */
  datatype EmptyWindowAlert = EmptyWindowAlert(window: int, pending: nat)

  /** How a sync ends: no sheet handler; an exception (the fetch, or the
      configuration file after the entries were added); or completion with
      the alert, if any, that was sent. */
  datatype SyncOutcome =
    | NoSheets
    | SyncFailed(added: nat)
    | Synced(added: nat, alert: Option<ThresholdAlert>)

  const DefaultThreshold := 20

  /** The timestamps of a batch of submissions. */
  function TimestampsOf(rows: seq<SheetEntry>): set<string>
  {
    if rows == [] then {} else TimestampsOf(rows[..|rows| - 1]) + {rows[|rows| - 1].timestamp}
  }

  /** How many of `rows`, offered in order to a store that has already seen
      `seen`, carry a timestamp not seen before (by the store or by an
      earlier row of the batch). */
  function AddedCount(seen: set<string>, rows: seq<SheetEntry>): nat
    decreases |rows|
  {
    if rows == [] then 0
    else
      var init := rows[..|rows| - 1];
      AddedCount(seen, init) + (if rows[|rows| - 1].timestamp in seen + TimestampsOf(init) then 0 else 1)
  }

  lemma {:induction false} TimestampsOfSnoc(rows: seq<SheetEntry>, r: SheetEntry)
    ensures TimestampsOf(rows + [r]) == TimestampsOf(rows) + {r.timestamp}
  {
    assert (rows + [r])[..|rows|] == rows;
  }

  /** The number of entries a sync adds is the number of distinct
      timestamps in the batch that the store had not seen: a timestamp
      repeated inside one batch is added once. */
  lemma {:induction false} AddedCountIsNewTimestamps(seen: set<string>, rows: seq<SheetEntry>)
    ensures AddedCount(seen, rows) == |TimestampsOf(rows) - seen|
    ensures AddedCount(seen, rows) <= |rows|
    decreases |rows|
  {
    if rows == [] {
      assert TimestampsOf(rows) == {};
    } else {
      var init := rows[..|rows| - 1];
      var last := rows[|rows| - 1];
      AddedCountIsNewTimestamps(seen, init);
      assert rows == init + [last];
      TimestampsOfSnoc(init, last);
      var before := TimestampsOf(init) - seen;
      if last.timestamp in seen + TimestampsOf(init) {
        assert TimestampsOf(rows) - seen == before;
      } else {
        assert TimestampsOf(rows) - seen == before + {last.timestamp};
        assert last.timestamp !in before;
      }
    }
  }

  /** Adding one pending entry under a fresh id raises the pending count by
      one. */
  lemma {:induction false} PendingCountGrows(t: Table, k: nat, e: Entry)
    requires k !in t && e.status == Pending
    ensures StatusCount(t[k := e], Pending) == StatusCount(t, Pending) + 1
  {
    var t' := t[k := e];
    var before := IdsWithStatus(t, t.Keys, Pending);
    assert IdsWithStatus(t', t'.Keys, Pending) == before + {k};
    assert k !in before;
  }

  /** The loop of `sync_google_sheets`: offers every fetched submission to
      `add_entry` and counts the ones it accepted. */
  method SyncEntries(store: Store, rows: seq<SheetEntry>) returns (added: nat)
    requires store.Valid()
    modifies store
    ensures store.Valid()
    ensures added == AddedCount(old(store.processed), rows)
    ensures store.processed == old(store.processed) + TimestampsOf(rows)
    ensures StatusCount(store.entries, Pending) == old(StatusCount(store.entries, Pending)) + added
    ensures store.counter == old(store.counter)
  {
    added := 0;
    ghost var seen := store.processed;
    ghost var pending := StatusCount(store.entries, Pending);
    for i := 0 to |rows|
      invariant store.Valid()
      invariant store.processed == seen + TimestampsOf(rows[..i])
      invariant added == AddedCount(seen, rows[..i])
      invariant StatusCount(store.entries, Pending) == pending + added
      invariant store.counter == old(store.counter)
    {
      ghost var t := store.entries;
      ghost var k := store.nextId;
      var ok := store.AddEntry(rows[i].timestamp, rows[i].text);
      assert rows[..i + 1] == rows[..i] + [rows[i]];
      assert rows[..i + 1][..i] == rows[..i];
      TimestampsOfSnoc(rows[..i], rows[i]);
      if ok {
        assert k !in t;
        PendingCountGrows(t, k, Entry(rows[i].timestamp, rows[i].text, Pending, None, None, None, None, None));
        added := added + 1;
      }
    }
    assert rows[..|rows|] == rows;
  }

  /** The pending-threshold rule: notifications on (default off) and
      strictly more pending entries than the threshold (default 20). */
  predicate ThresholdExceeded(config: JobsConfig, pending: nat)
  {
    config.notificationsEnabled.GetOr(false) && pending > config.pendingThreshold.GetOr(DefaultThreshold)
  }

  /** With no threshold configured the alert fires from the 21st pending
      entry on, and never while notifications are off or unset. */
  lemma {:induction false} ThresholdDefaults(pending: nat, threshold: Option<int>)
    ensures ThresholdExceeded(JobsConfig(Some(true), None), pending) <==> pending >= 21
    ensures !ThresholdExceeded(JobsConfig(None, threshold), pending)
    ensures !ThresholdExceeded(JobsConfig(Some(false), threshold), pending)
  {
  }

  /** `sync_google_sheets`. `fetched` is None when the fetch raises and
      `config` is None when the configuration file cannot be read or
      written; both exceptions are caught, the second after the entries were
      added. The threshold alert carries the pending count after the sync
      and the first empty window, if a scheduler exists. */
  method SyncGoogleSheets(store: Store, hasSheets: bool, fetched: Option<seq<SheetEntry>>, config: Option<JobsConfig>,
                          hasScheduler: bool, ws: seq<int>, now: int, times: seq<int>) returns (outcome: SyncOutcome)
    requires store.Valid()
    modifies store
    ensures store.Valid()
    ensures !hasSheets ==> outcome == NoSheets && store.entries == old(store.entries) && store.processed == old(store.processed)
    ensures hasSheets && fetched.None? ==> outcome == SyncFailed(0) && store.entries == old(store.entries) && store.processed == old(store.processed)
    ensures hasSheets && fetched.Some? ==>
      && (config.None? ==> outcome.SyncFailed?)
      && (config.Some? ==> outcome.Synced?)
      && store.processed == old(store.processed) + TimestampsOf(fetched.value)
      && outcome.added == |TimestampsOf(fetched.value) - old(store.processed)|
      && StatusCount(store.entries, Pending) == old(StatusCount(store.entries, Pending)) + outcome.added
    ensures outcome.Synced? ==>
      var pending := StatusCount(store.entries, Pending);
      && (outcome.alert.Some? <==> ThresholdExceeded(config.value, pending))
      && (outcome.alert.Some? ==> outcome.alert.value == ThresholdAlert(pending, if hasScheduler then FirstEmptyWindow(ws, now, times) else None))
    ensures store.counter == old(store.counter)
  {
    if !hasSheets {
      return NoSheets;
    }
    if fetched.None? {
      return SyncFailed(0);
    }
    var added := SyncEntries(store, fetched.value);
    AddedCountIsNewTimestamps(old(store.processed), fetched.value);
    if config.None? {
      return SyncFailed(added);
    }
    var alert: Option<ThresholdAlert> := None;
    if config.value.notificationsEnabled.GetOr(false) {
      var stats := store.GetStatistics();
      var pending := stats[Pending];
      var threshold := config.value.pendingThreshold.GetOr(DefaultThreshold);
      if pending > threshold {
        var nextEmpty := CheckEmptyWindows(hasScheduler, ws, now, times);
        alert := Some(ThresholdAlert(pending, nextEmpty));
      }
    }
    outcome := Synced(added, alert);
  }

  /** `check_notifications`: with notifications on, looks for an empty
      window and, when one is found, alerts with it and the pending count.
      `config` is None when the configuration file cannot be read. */
  method CheckNotifications(store: Store, config: Option<JobsConfig>, hasScheduler: bool,
                            ws: seq<int>, now: int, times: seq<int>) returns (alert: Option<EmptyWindowAlert>)
    ensures alert.Some? <==>
      config.Some? && config.value.notificationsEnabled.GetOr(false) && hasScheduler && FirstEmptyWindow(ws, now, times).Some?
    ensures alert.Some? ==> alert.value == EmptyWindowAlert(FirstEmptyWindow(ws, now, times).value, StatusCount(store.entries, Pending))
  {
    if config.None? || !config.value.notificationsEnabled.GetOr(false) {
      return None;
    }
    var nextEmpty := CheckEmptyWindows(hasScheduler, ws, now, times);
    if nextEmpty.None? {
      return None;
    }
    var stats := store.GetStatistics();
    alert := Some(EmptyWindowAlert(nextEmpty.value, stats[Pending]));
  }

  /** An empty-window alert names a window within the next 24 hours that no
      scheduled post occupies at that date and minute (windows are whole
      minutes of the day, as the posting-window loader produces them). */
  lemma {:induction false} EmptyWindowAlertIsEmpty(alert: EmptyWindowAlert, ws: seq<int>, now: int, times: seq<int>)
    requires forall i :: 0 <= i < |ws| ==> 0 <= ws[i] < Day && ws[i] % 60 == 0
    requires FirstEmptyWindow(ws, now, times) == Some(alert.window)
    ensures now < alert.window <= now + Day
    ensures forall t :: t in times ==> (DayOf(t), MinuteOf(t)) != (DayOf(alert.window), MinuteOf(alert.window))
  {
    EmptyWindowSound(ws, now, times);
    var d, i :| && 0 <= d <= 1 && 0 <= i < |ws| && alert.window == DaySlot(DayOf(now), d, ws[i])
                && forall t :: t in times ==> (DayOf(t), MinuteOf(t)) != (DayOf(now) + d, ws[i]);
    SlotParts(DayOf(now) + d, ws[i]);
  }

  /** A window's slot falls on its day, at its minute. */
  lemma {:induction false} SlotParts(day: int, w: int)
    requires 0 <= w < Day && w % 60 == 0
    ensures DayOf(SlotAt(day, w)) == day && MinuteOf(SlotAt(day, w)) == w
  {
    assert SlotAt(day, w) / Day == day;
    assert SlotAt(day, w) % Day == w;
  }
}
