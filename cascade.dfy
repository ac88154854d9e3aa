/** The multi-row routes of the scheduled page as the store and external
    scheduler calls they make, each proved to leave the state its function
    in module CascadeSpec describes. */
module Cascade {
  import opened Wrappers
  import opened Collections
  import opened PostPrefix
  import opened EntryStore
  import opened ExternalScheduler
  import opened CascadeSpec

  /** `unschedule_entry`. */
  method UnscheduleEntry(store: Store, ext: Schedule, hasHandler: bool, id: nat) returns (outcome: UnscheduleOutcome)
    requires store.Valid() && ext.Valid()
    modifies store`entries, store`counter, ext`posts
    ensures store.Valid() && ext.Valid()
    ensures (World(store.entries, store.counter, ext.posts), outcome) ==
      Unschedule(old(World(store.entries, store.counter, ext.posts)), store.nextId, id, hasHandler, ext.refused)
  {
    ghost var w := World(store.entries, store.counter, ext.posts);
    UnscheduleCases(w, store.nextId, id, hasHandler, ext.refused);
    var rows := store.GetScheduledEntries();
    var found := FindRow(rows, id);
    if found.None? {
      return EntryNotFound;
    }
    outcome := UnscheduleFound(store, ext, hasHandler, id, rows, found.value, w);
    assert World(store.entries, store.counter, ext.posts) == Unschedule(w, store.nextId, id, hasHandler, ext.refused).0;
  }

  /** `unschedule_entry` once the entry is found in the snapshot: released,
      then either stopped by a missing number or cascaded. */
  method UnscheduleFound(store: Store, ext: Schedule, hasHandler: bool, id: nat, rows: seq<Row>, i: nat, ghost w: World)
    returns (outcome: UnscheduleOutcome)
    requires store.Valid() && ext.Valid() && w == World(store.entries, store.counter, ext.posts)
    requires rows == ScheduledRows(w.t, store.nextId) && i < |rows| && id in w.t && rows[i].entry == w.t[id]
    modifies store`entries, store`counter, ext`posts
    ensures store.Valid() && ext.Valid()
    ensures outcome == if Comparable(rows, w.t[id].postNumber) then Unscheduled else NumberError
    ensures outcome == NumberError ==>
      && store.entries == Freed(w, id, hasHandler, ext.refused).t
      && ext.posts == Freed(w, id, hasHandler, ext.refused).posts
      && store.counter == w.counter
    ensures outcome == Unscheduled ==>
      && w.t[id].postNumber.Some?
      && store.entries == Cascaded(w, store.nextId, id, hasHandler, ext.refused).t
      && ext.posts == Cascaded(w, store.nextId, id, hasHandler, ext.refused).posts
      && store.counter == w.counter - 1
  {
    var e := rows[i].entry;
    FreeEntry(store, ext, hasHandler, id, e);
    if !Comparable(rows, e.postNumber) {
      return NumberError;
    }
    var following := Following(rows, e.postNumber.value);
    assert following == FollowingOf(w, store.nextId, id);
    ShiftAll(store, ext, hasHandler, following, e.time);
    store.LowerCounter(1);
    outcome := Unscheduled;
  }

  /** The external post of the unscheduled entry is deleted (with a client
      and a reference), then the entry is released. */
  method FreeEntry(store: Store, ext: Schedule, hasHandler: bool, id: nat, e: Entry)
    requires store.Valid() && ext.Valid() && id in store.entries && store.entries[id] == e
    modifies store`entries, ext`posts
    ensures store.Valid() && ext.Valid()
    ensures Shift(store.entries, ext.posts, e.time) ==
      Freed(old(World(store.entries, store.counter, ext.posts)), id, hasHandler, ext.refused)
  {
    if hasHandler && HasRef(e) {
      var deleted := ext.DeletePost(e.ref.value);
    }
    store.ReleaseEntry(id);
  }

  /** The cascade loop: each following entry takes the time freed before it. */
  method ShiftAll(store: Store, ext: Schedule, hasHandler: bool, f: seq<Row>, freed: Option<int>)
    requires store.Valid() && ext.Valid()
    modifies store`entries, ext`posts
    ensures store.Valid() && ext.Valid()
    ensures var s := CascadeFrom(Shift(old(store.entries), old(ext.posts), freed), f, ShiftedTexts(f), hasHandler,
                                 Refs(old(ext.posts)) - ext.refused, |f|);
      store.entries == s.t && ext.posts == s.posts
  {
    ghost var s0 := Shift(store.entries, ext.posts, freed);
    ghost var accepted := Refs(ext.posts) - ext.refused;
    ghost var texts := ShiftedTexts(f);
    var prev := freed;
    for k := 0 to |f|
      invariant store.Valid() && ext.Valid()
      invariant Refs(ext.posts) - ext.refused == accepted
      invariant Shift(store.entries, ext.posts, prev) == CascadeFrom(s0, f, texts, hasHandler, accepted, k)
    {
      prev := ShiftNth(store, ext, hasHandler, f, k, prev, s0, texts, accepted);
    }
  }

  /** Pass `k` of the cascade loop, from the state after the first `k`. */
  method ShiftNth(store: Store, ext: Schedule, hasHandler: bool, f: seq<Row>, k: nat, prev: Option<int>,
                  ghost s0: Shift, ghost texts: seq<string>, ghost accepted: set<string>) returns (next: Option<int>)
    requires store.Valid() && ext.Valid() && accepted == Refs(ext.posts) - ext.refused
    requires k < |f| && texts == ShiftedTexts(f)
    requires Shift(store.entries, ext.posts, prev) == CascadeFrom(s0, f, texts, hasHandler, accepted, k)
    modifies store`entries, ext`posts
    ensures store.Valid() && ext.Valid() && Refs(ext.posts) == Refs(old(ext.posts))
    ensures Shift(store.entries, ext.posts, next) == CascadeFrom(s0, f, texts, hasHandler, accepted, k + 1)
  {
    var message := Render(NumberOf(f[k]) - 1, f[k].entry.text);
    assert message == texts[k];
    next := ShiftOne(store, ext, hasHandler, f[k], message, prev, accepted);
  }

  /** One pass of the cascade loop: the external post first, then the row. */
  method ShiftOne(store: Store, ext: Schedule, hasHandler: bool, r: Row, message: string, prev: Option<int>,
                  ghost accepted: set<string>) returns (next: Option<int>)
    requires store.Valid() && ext.Valid() && accepted == Refs(ext.posts) - ext.refused
    modifies store`entries, ext`posts
    ensures store.Valid() && ext.Valid() && Refs(ext.posts) == Refs(old(ext.posts))
    ensures Shift(store.entries, ext.posts, next) ==
      ShiftStep(Shift(old(store.entries), old(ext.posts), prev), r, message, hasHandler, accepted)
  {
    next := prev;
    if prev.Some? && hasHandler && r.entry.ref.Some? {
      UpdatedKeepsRefs(ext.posts, r.entry.ref.value, message, prev);
      var ok := ext.UpdatePost(r.entry.ref.value, message, prev);
      if ok {
        store.SetNumberAndTime(r.id, Some(NumberOf(r) - 1), prev);
        next := r.entry.time;
      }
    }
  }

  /** `swap_posts`. */
  method SwapPosts(store: Store, ext: Schedule, available: bool, id: nat, dir: Direction) returns (outcome: SwapOutcome)
    requires store.Valid() && ext.Valid()
    modifies store`entries, ext`posts
    ensures store.Valid() && ext.Valid()
    ensures (World(store.entries, store.counter, ext.posts), outcome) ==
      Swap(old(World(store.entries, store.counter, ext.posts)), store.nextId, id, dir, available, ext.refused)
  {
    if !available {
      return SchedulerMissing;
    }
    var rows := store.GetScheduledEntries();
    if !Sortable(rows) {
      return SwapError;
    }
    outcome := SwapSorted(store, ext, id, dir, rows);
  }

  /** The swap once the scheduler is there and the snapshot sorts. */
  method SwapSorted(store: Store, ext: Schedule, id: nat, dir: Direction, rows: seq<Row>) returns (outcome: SwapOutcome)
    requires store.Valid() && ext.Valid()
    requires rows == ScheduledRows(store.entries, store.nextId) && Sortable(rows)
    modifies store`entries, ext`posts
    ensures store.Valid() && ext.Valid()
    ensures (World(store.entries, store.counter, ext.posts), outcome) ==
      Swap(old(World(store.entries, store.counter, ext.posts)), store.nextId, id, dir, true, ext.refused)
  {
    ghost var w := World(store.entries, store.counter, ext.posts);
    ghost var u := Swap(w, store.nextId, id, dir, true, ext.refused);
    var sorted := ByNumber(rows);
    var found := FindRow(sorted, id);
    if found.None? {
      assert u == (w, SwapNotFound);
      return SwapNotFound;
    }
    var target := Neighbour(found.value, |sorted|, dir);
    if target.None? {
      assert u == (w, AtBoundary);
      return AtBoundary;
    }
    var cur := sorted[found.value];
    var tgt := sorted[target.value];
    if cur.entry.time.None? || tgt.entry.time.None? {
      assert u == (w, SwapError);
      return SwapError;
    }
    SwapRuns(w, store.nextId, id, dir, ext.refused, found.value, target.value);
    ghost var x := SwapExternal(w.posts, cur.entry, tgt.entry, ext.refused);
    assert u.0.posts == x.0 && u.1 == (if x.1 then Swapped else SwapExternalFailed);
    outcome := ExchangeRows(store, ext, cur, tgt);
    assert store.entries == u.0.t && ext.posts == u.0.posts && store.counter == u.0.counter;
    assert World(store.entries, store.counter, ext.posts) == u.0;
  }

  /** The committed part of a swap: both rows take each other's number and
      time, then both external posts are rewritten. */
  method ExchangeRows(store: Store, ext: Schedule, cur: Row, tgt: Row) returns (outcome: SwapOutcome)
    requires store.Valid() && ext.Valid()
    modifies store`entries, ext`posts
    ensures store.Valid() && ext.Valid()
    ensures store.entries == Exchanged(old(store.entries), cur, tgt)
    ensures ext.posts == SwapExternal(old(ext.posts), cur.entry, tgt.entry, ext.refused).0
    ensures outcome == if SwapExternal(old(ext.posts), cur.entry, tgt.entry, ext.refused).1 then Swapped else SwapExternalFailed
  {
    store.SetNumberAndTime(cur.id, tgt.entry.postNumber, tgt.entry.time);
    store.SetNumberAndTime(tgt.id, cur.entry.postNumber, cur.entry.time);
    var ok := SwapExternalCalls(ext, cur.entry, tgt.entry);
    outcome := if ok then Swapped else SwapExternalFailed;
  }

  /** The two external rewrites of a swap; a refused first one raises
      before the second. */
  method SwapExternalCalls(ext: Schedule, cur: Entry, tgt: Entry) returns (ok: bool)
    requires ext.Valid()
    modifies ext`posts
    ensures ext.Valid()
    ensures ext.posts == SwapExternal(old(ext.posts), cur, tgt, ext.refused).0
    ensures ok == SwapExternal(old(ext.posts), cur, tgt, ext.refused).1
  {
    if HasRef(cur) {
      ok := ext.UpdatePost(cur.ref.value, RenderOptional(tgt.postNumber, cur.text), tgt.time);
      if !ok {
        return;
      }
    }
    if HasRef(tgt) {
      ok := ext.UpdatePost(tgt.ref.value, RenderOptional(cur.postNumber, tgt.text), cur.time);
    } else {
      ok := true;
    }
  }

  /** `edit_scheduled_post`. */
  method EditScheduledPost(store: Store, ext: Schedule, available: bool, id: nat, newText: string) returns (outcome: EditOutcome)
    requires store.Valid() && ext.Valid()
    modifies store`entries, ext`posts
    ensures store.Valid() && ext.Valid()
    ensures (World(store.entries, store.counter, ext.posts), outcome) ==
      Edit(old(World(store.entries, store.counter, ext.posts)), store.nextId, id, newText, available, ext.refused)
  {
    if newText == [] {
      return EmptyText;
    }
    var rows := store.GetScheduledEntries();
    var found := FindRow(rows, id);
    if found.None? {
      return EditNotFound;
    }
    var e := rows[found.value].entry;
    var clean := StripPrefix(newText);
    store.SetText(id, clean);
    outcome := Edited;
    if available && HasRef(e) {
      var ok := ext.UpdatePost(e.ref.value, RenderOptional(e.postNumber, clean), None);
      if !ok {
        outcome := EditExternalFailed;
      }
    }
  }

  /** `approve_entry`: approves the entry (by "admin") and returns the text
      handed to the scheduler. */
  method ApproveRoute(store: Store, id: nat, edited: string, now: string) returns (formatted: string)
    requires store.Valid()
    modifies store`entries
    ensures store.Valid()
    ensures id in old(store.entries) ==>
      store.entries ==
      old(store.entries)[id := old(store.entries)[id].(status := Approved, text := edited, approvedBy := Some("admin"), approvedAt := Some(now))]
    ensures id !in old(store.entries) ==> store.entries == old(store.entries)
    ensures formatted == ApprovedText(old(store.entries), id, edited)
  {
    store.ApproveEntry(id, edited, "admin", now);
    var number := if id in store.entries then store.entries[id].postNumber else Some(1);
    formatted := RenderOptional(number, edited);
  }
}
