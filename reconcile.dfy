/** The scheduled-posts page (`scheduled_page`) as the sequence of store and
    external-scheduler calls it makes, phase by phase, each proved against
    the phase's function in module ReconcileSpec; `ScheduledPage` runs the
    whole visit and is proved to leave the state `Pass` describes. */
module Reconcile {
  import opened Wrappers
  import opened Collections
  import opened PostPrefix
  import opened EntryStore
  import opened ExternalScheduler
  import opened Slots
  import opened ReconcileSpec

  /** Builds the keys of `fb_posts_by_number`. */
  method CollectNumbers(posts: seq<ExtPost>) returns (numbers: set<int>)
    ensures numbers == NumbersOf(posts)
  {
    numbers := {};
    for i := 0 to |posts|
      invariant numbers == NumbersOf(posts[..i])
    {
      assert posts[..i + 1][..i] == posts[..i];
      match ParseNumber(posts[i].message)
      case Some(n) => numbers := numbers + {n};
      case None =>
    }
    assert posts[..|posts|] == posts;
  }

  /** Phase 1: deletes every scheduled entry whose truthy number the
      listing does not carry, then lowers the counter by their count. */
  method RemoveOrphans(store: Store, numbers: set<int>) returns (removed: nat)
    requires store.Valid()
    modifies store`entries, store`counter
    ensures store.Valid()
    ensures store.entries == old(store.entries) - OrphanIds(old(store.entries), numbers)
    ensures removed == |OrphanIds(old(store.entries), numbers)|
    ensures store.counter == AsWrittenCounter(old(store.counter), removed)
  {
    var rows := store.GetScheduledEntries();
    ghost var t0 := store.entries;
    removed := DeleteOrphanRows(store, rows, numbers);
    OrphanRowIdsAreOrphans(t0, store.nextId, numbers);
    if removed > 0 {
      store.LowerCounter(removed);
    }
  }

  /** The deletion loop over the snapshot of scheduled rows. */
  method DeleteOrphanRows(store: Store, rows: seq<Row>, numbers: set<int>) returns (removed: nat)
    requires store.Valid() && DistinctIds(rows)
    modifies store`entries
    ensures store.Valid()
    ensures store.entries == old(store.entries) - OrphanRowIds(rows, numbers, |rows|)
    ensures removed == |OrphanRowIds(rows, numbers, |rows|)|
  {
    ghost var base := store.entries;
    removed := 0;
    for i := 0 to |rows|
      invariant store.Valid()
      invariant store.entries == base - OrphanRowIds(rows, numbers, i)
      invariant removed == |OrphanRowIds(rows, numbers, i)|
    {
      var deleted := DeleteIfOrphan(store, rows, numbers, i, base);
      if deleted {
        removed := removed + 1;
      }
    }
  }

  /** One pass of the deletion loop: row `i` is deleted when it is an
      orphan. */
  method DeleteIfOrphan(store: Store, rows: seq<Row>, numbers: set<int>, i: nat, ghost base: Table) returns (deleted: bool)
    requires store.Valid() && DistinctIds(rows) && i < |rows|
    requires store.entries == base - OrphanRowIds(rows, numbers, i)
    modifies store`entries
    ensures store.Valid()
    ensures store.entries == base - OrphanRowIds(rows, numbers, i + 1)
    ensures |OrphanRowIds(rows, numbers, i + 1)| == |OrphanRowIds(rows, numbers, i)| + (if deleted then 1 else 0)
  {
    ghost var before := OrphanRowIds(rows, numbers, i);
    deleted := IsOrphan(rows[i].entry, numbers);
    if deleted {
      OrphanRowIdsBelow(rows, numbers, i);
      assert OrphanRowIds(rows, numbers, i + 1) == before + {rows[i].id};
      store.DeleteEntry(rows[i].id);
      RemoveTwice(base, before, {rows[i].id});
    } else {
      assert OrphanRowIds(rows, numbers, i + 1) == before;
    }
  }

  lemma {:induction false} RemoveTwice(t: Table, a: set<nat>, b: set<nat>)
    ensures (t - a) - b == t - (a + b)
  {
    assert ((t - a) - b).Keys == (t - (a + b)).Keys;
  }

  /** The ids of the orphans among the first `i` rows. */
  ghost function OrphanRowIds(rows: seq<Row>, numbers: set<int>, i: nat): set<nat>
    requires i <= |rows|
  {
    if i == 0 then {}
    else OrphanRowIds(rows, numbers, i - 1) + if IsOrphan(rows[i - 1].entry, numbers) then {rows[i - 1].id} else {}
  }

  lemma {:induction false} OrphanRowIdsBelow(rows: seq<Row>, numbers: set<int>, i: nat)
    requires i < |rows| && DistinctIds(rows)
    ensures rows[i].id !in OrphanRowIds(rows, numbers, i)
  {
    OrphanRowIdsMembers(rows, numbers, i);
  }

  lemma {:induction false} OrphanRowIdsMembers(rows: seq<Row>, numbers: set<int>, i: nat)
    requires i <= |rows|
    ensures forall id :: id in OrphanRowIds(rows, numbers, i) <==>
      exists k :: 0 <= k < i && rows[k].id == id && IsOrphan(rows[k].entry, numbers)
  {
    if i > 0 {
      OrphanRowIdsMembers(rows, numbers, i - 1);
    }
  }

  /** Walking the scheduled rows finds exactly the orphans of the table. */
  lemma {:induction false} OrphanRowIdsAreOrphans(t: Table, nextId: nat, numbers: set<int>)
    requires forall id :: id in t ==> id < nextId
    ensures OrphanRowIds(ScheduledRows(t, nextId), numbers, |ScheduledRows(t, nextId)|) == OrphanIds(t, numbers)
  {
    var rows := ScheduledRows(t, nextId);
    OrphanRowIdsMembers(rows, numbers, |rows|);
    forall id | id in OrphanIds(t, numbers) ensures id in OrphanRowIds(rows, numbers, |rows|) {
      assert Row(id, t[id]) in rows;
    }
  }

  /** The lowest number the posts carry (`fb_post_numbers` sorted, first). */
  method LowestOf(posts: seq<ExtPost>) returns (lowest: Option<int>)
    ensures lowest == LowestNumber(posts)
  {
    lowest := None;
    for i := 0 to |posts|
      invariant lowest == LowestNumber(posts[..i])
    {
      assert posts[..i + 1][..i] == posts[..i];
      match ParseNumber(posts[i].message)
      case Some(n) =>
        if lowest.None? || n < lowest.value {
          lowest := Some(n);
        }
      case None =>
    }
    assert posts[..|posts|] == posts;
  }

  /** Phase 2: after orphans were deleted, renumbers the listing in time
      order from its lowest number, one update per post that needs it. The
      counter is left where the orphan phase put it. */
  method CompactListing(ext: Schedule, hadOrphans: bool)
    requires ext.Valid()
    modifies ext`posts
    ensures ext.Valid()
    ensures ext.posts == Compacted(old(ext.posts), ext.refused, hadOrphans)
  {
    if hadOrphans && |ext.posts| > 0 {
      var sorted := ByTime(ext.posts);
      var lowest := LowestOf(sorted);
      if lowest.Some? {
        RenumberAll(ext, sorted, Rewrites(sorted, lowest.value));
      }
    }
  }

  /** The compaction loop over the posts in time order. */
  method RenumberAll(ext: Schedule, sorted: seq<ExtPost>, rewrites: seq<Option<string>>)
    requires ext.Valid() && |rewrites| == |sorted|
    modifies ext`posts
    ensures ext.Valid()
    ensures ext.posts == RenumberFrom(old(ext.posts), sorted, rewrites, ext.refused, |sorted|)
  {
    for i := 0 to |sorted|
      invariant ext.Valid()
      invariant ext.posts == RenumberFrom(old(ext.posts), sorted, rewrites, ext.refused, i)
    {
      RenumberPost(ext, sorted[i], rewrites[i]);
    }
  }

  /** One step of the compaction loop: the post's rewrite, if it needs one. */
  method RenumberPost(ext: Schedule, p: ExtPost, rewrite: Option<string>)
    requires ext.Valid()
    modifies ext`posts
    ensures ext.Valid()
    ensures ext.posts == RenumberStep(old(ext.posts), p, rewrite, ext.refused)
  {
    if rewrite.Some? {
      var ok := ext.UpdatePost(p.ref, rewrite.value, None);
    }
  }

  /** `next(e for e in db_entries if e['post_number'] == n)`. */
  method FindByNumber(rows: seq<Row>, n: int) returns (k: Option<nat>)
    ensures k == FindNumber(rows, n)
  {
    var i := 0;
    while i < |rows|
      invariant i <= |rows|
      invariant forall j :: 0 <= j < i ==> rows[j].entry.postNumber != Some(n)
    {
      if rows[i].entry.postNumber == Some(n) {
        return Some(i);
      }
      i := i + 1;
    }
    return None;
  }

  /** Phase 3: matches each post, in time order, with a local scheduled
      entry by number; refreshes the entry when its reference differs and
      creates one when none carries the number. */
  method SyncListing(store: Store, posts: seq<ExtPost>, nowText: string)
    requires store.Valid()
    modifies store`entries, store`nextId
    ensures store.Valid()
    ensures var s := SyncAll(SyncState(old(store.entries), old(store.nextId), ScheduledRows(old(store.entries), old(store.nextId))),
                             ByTime(posts), nowText, |posts|);
      store.entries == s.t && store.nextId == s.nextId
  {
    var rows := store.GetScheduledEntries();
    ghost var s0 := SyncState(store.entries, store.nextId, rows);
    var sorted := ByTime(posts);
    for i := 0 to |sorted|
      invariant store.Valid()
      invariant SyncState(store.entries, store.nextId, rows) == SyncAll(s0, sorted, nowText, i)
    {
      rows := SyncPostWith(store, rows, sorted[i], nowText);
    }
  }

  /** The sync of one post against the snapshot `rows`, which it returns
      updated. */
  method SyncPostWith(store: Store, rows: seq<Row>, p: ExtPost, nowText: string) returns (rows': seq<Row>)
    requires store.Valid()
    modifies store`entries, store`nextId
    ensures store.Valid()
    ensures SyncState(store.entries, store.nextId, rows') == SyncPost(SyncState(old(store.entries), old(store.nextId), rows), p, nowText)
  {
    rows' := rows;
    var d := ParsePost(p.message);
    if Numbered(d.number) {
      var found := FindByNumber(rows, d.number.value);
      match found
      case Some(k) =>
        if rows[k].entry.ref != Some(p.ref) {
          store.SetExternal(rows[k].id, p.ref, p.time, d.text);
          rows' := rows[k := Row(rows[k].id, rows[k].entry.(ref := Some(p.ref), time := Some(p.time), text := d.text))];
        }
      case None =>
        var id := store.InsertScheduled(d.text, d.number.value, p.ref, p.time, nowText);
    }
  }

  /** Phase 4: with a slot planner, pairs the posts in time order with the
      canonical slots and moves every numbered post more than a minute off
      its slot, locally by number and on the external schedule. */
  method FillScheduleHoles(store: Store, ext: Schedule, hasScheduler: bool, ws: seq<int>, now: int, skip: int -> bool)
    requires store.Valid() && ext.Valid()
    modifies store`entries, ext`posts
    ensures store.Valid() && ext.Valid()
    ensures (store.entries, ext.posts) == FillHoles(old(store.entries), old(ext.posts), hasScheduler, ws, now, skip, ext.refused)
  {
    if hasScheduler && |ext.posts| > 0 {
      var sorted := ByTime(ext.posts);
      var slots := ValidSlots(ws, now, skip, |ext.posts|);
      MoveAll(store, ext, sorted, Relocations(sorted, slots));
    }
  }

  /** The move loop over the posts in time order. */
  method MoveAll(store: Store, ext: Schedule, sorted: seq<ExtPost>, targets: seq<Option<Relocation>>)
    requires store.Valid() && ext.Valid() && |targets| == |sorted|
    modifies store`entries, ext`posts
    ensures store.Valid() && ext.Valid()
    ensures store.entries == RetimedFrom(old(store.entries), targets, |targets|)
    ensures ext.posts == MovedFrom(old(ext.posts), sorted, targets, ext.refused, |sorted|)
  {
    for i := 0 to |sorted|
      invariant store.Valid() && ext.Valid()
      invariant store.entries == RetimedFrom(old(store.entries), targets, i)
      invariant ext.posts == MovedFrom(old(ext.posts), sorted, targets, ext.refused, i)
    {
      MovePost(store, ext, sorted[i], targets[i]);
    }
  }

  /** One move: the local entries carrying the number, then the external
      post. */
  method MovePost(store: Store, ext: Schedule, p: ExtPost, target: Option<Relocation>)
    requires store.Valid() && ext.Valid()
    modifies store`entries, ext`posts
    ensures store.Valid() && ext.Valid()
    ensures store.entries == if target.Some? then RetimeNumber(old(store.entries), target.value.number, target.value.slot) else old(store.entries)
    ensures ext.posts == MoveStep(old(ext.posts), p, target, ext.refused)
  {
    if target.Some? {
      store.SetTimeByNumber(target.value.number, target.value.slot);
      var ok := ext.UpdatePost(p.ref, p.message, Some(target.value.slot));
    }
  }

  /** One visit of the page. Returns whether orphans were deleted (the
      flag the page shows). */
  method ScheduledPage(store: Store, ext: Schedule, hasHandler: bool, hasScheduler: bool, ws: seq<int>, now: int,
                       skip: int -> bool, nowText: string) returns (hadOrphans: bool)
    requires store.Valid() && ext.Valid()
    modifies store`entries, store`counter, store`nextId, ext`posts
    ensures store.Valid() && ext.Valid()
    ensures PassState(store.entries, store.counter, store.nextId, ext.posts) ==
      Pass(old(PassState(store.entries, store.counter, store.nextId, ext.posts)), hasHandler, hasScheduler, ws, now, skip, nowText, ext.refused)
    ensures hadOrphans == (hasHandler && |Orphans(old(PassState(store.entries, store.counter, store.nextId, ext.posts)))| > 0)
  {
    if !hasHandler {
      return false;
    }
    var numbers := CollectNumbers(ext.Listing());
    var removed := RemoveOrphans(store, numbers);
    hadOrphans := removed > 0;
    CompactListing(ext, hadOrphans);
    SyncListing(store, ext.posts, nowText);
    FillScheduleHoles(store, ext, hasScheduler, ws, now, skip);
  }
}
