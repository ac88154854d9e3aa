/** What one visit of the scheduled-posts page does to the local store and to
    the external schedule, as functions of the state before the visit. The
    visit runs four phases in order:
      1. orphans: scheduled entries whose number no external post carries are
         deleted, and the counter is lowered by their count;
      2. compaction: when orphans were deleted, the external posts, in time
         order, are renumbered consecutively from the lowest number present;
      3. sync: each external post is matched to a local scheduled entry by
         number, refreshing the entry when its reference changed or creating
         one when none matches;
      4. hole-filling: with a slot planner, the posts in time order are moved
         onto the first canonical slots wherever they are more than 60 s off.
    The imperative walk through the same phases is in module Reconcile. */
module ReconcileSpec {
  import opened Wrappers
  import opened Collections
  import opened PostPrefix
  import opened EntryStore
  import opened ExternalScheduler
  import opened Slots

  // ---------------------------------------------------------------------
  // Phase 1: orphans
  // ---------------------------------------------------------------------

  /** The numbers the external posts carry (`fb_posts_by_number`'s keys). */
  function NumbersOf(posts: seq<ExtPost>): set<int>
  {
    if posts == [] then {}
    else
      NumbersOf(posts[..|posts| - 1])
      + match ParseNumber(posts[|posts| - 1].message) { case Some(n) => {n} case None => {} }
  }

  lemma {:induction false} NumbersOfMembers(posts: seq<ExtPost>)
    ensures forall n :: n in NumbersOf(posts) <==> exists i :: 0 <= i < |posts| && ParseNumber(posts[i].message) == Some(n)
  {
    if posts != [] {
      var init := posts[..|posts| - 1];
      NumbersOfMembers(init);
      forall n | n in NumbersOf(init) ensures exists i :: 0 <= i < |posts| && ParseNumber(posts[i].message) == Some(n) {
        var i :| 0 <= i < |init| && ParseNumber(init[i].message) == Some(n);
        assert posts[i] == init[i];
      }
      forall n | (exists i :: 0 <= i < |posts| && ParseNumber(posts[i].message) == Some(n)) ensures n in NumbersOf(posts) {
        var i :| 0 <= i < |posts| && ParseNumber(posts[i].message) == Some(n);
        if i < |init| {
          assert init[i] == posts[i];
        }
      }
    }
  }

  /** A scheduled entry is an orphan when it carries a number (in Python's
      truthy sense) that no external post carries. */
  predicate IsOrphan(e: Entry, numbers: set<int>) {
    e.status == Scheduled && Numbered(e.postNumber) && e.postNumber.value !in numbers
  }

  function OrphanIds(t: Table, numbers: set<int>): set<nat> {
    set id | id in t && IsOrphan(t[id], numbers)
  }

  // ---------------------------------------------------------------------
  // Phase 2: compaction
  // ---------------------------------------------------------------------

  /** The lowest number among the posts, if any carries one. */
  function LowestNumber(posts: seq<ExtPost>): (r: Option<int>)
    ensures r.None? <==> NumbersOf(posts) == {}
    ensures r.Some? ==> r.value in NumbersOf(posts) && forall n :: n in NumbersOf(posts) ==> r.value <= n
  {
    if posts == [] then None
    else
      var rest := LowestNumber(posts[..|posts| - 1]);
      match ParseNumber(posts[|posts| - 1].message)
      case None => rest
      case Some(n) => if rest.Some? && rest.value <= n then rest else Some(n)
  }

  /** The new message of a post that should carry `expected`: only a post
      with a (truthy) number different from `expected` is rewritten, keeping
      its text after the first space. */
  function Rewrite(p: ExtPost, expected: int): Option<string>
  {
    var d := ParsePost(p.message);
    if Numbered(d.number) && d.number.value != expected then Some(Render(expected, d.text)) else None
  }

  /** A post is rewritten exactly when it carries a number other than the
      expected one, and the rewrite carries the expected number and keeps
      the text. */
  lemma {:induction false} RewriteRenumbers(p: ExtPost, expected: int)
    ensures WantedRewrite(Rewrite(p, expected), p, expected)
  {
    var d := ParsePost(p.message);
    if Numbered(d.number) && d.number.value != expected {
      RenderRoundTrip(expected, d.text);
    }
  }

  /** The rewrites the compaction loop wants, one per post in time order:
      the post at position `i` should carry `lowest + i`. */
  function Rewrites(sorted: seq<ExtPost>, lowest: int): (r: seq<Option<string>>)
    ensures |r| == |sorted|
    ensures forall i :: 0 <= i < |sorted| ==> r[i] == Rewrite(sorted[i], lowest + i)
  {
    seq(|sorted|, i requires 0 <= i < |sorted| => Rewrite(sorted[i], lowest + i))
  }

  /** One step of the compaction loop: `update_scheduled_post(p.ref, m)`
      when the post wants rewrite `m`; a refused reference leaves the listing
      as it was. Only the message of `p`'s own post changes. */
  function RenumberStep(prev: seq<ExtPost>, p: ExtPost, rewrite: Option<string>, refused: set<string>): (r: seq<ExtPost>)
    ensures |r| == |prev|
    ensures forall j :: 0 <= j < |prev| ==> r[j].ref == prev[j].ref && r[j].time == prev[j].time
    ensures forall j :: 0 <= j < |prev| ==>
      (r[j].message ==
        if prev[j].ref == p.ref && p.ref !in refused && rewrite.Some? then rewrite.value else prev[j].message)
  {
    match rewrite
    case Some(m) =>
      if p.ref in Refs(prev) && p.ref !in refused then Updated(prev, p.ref, m, None) else prev
    case None => prev
  }

  /** The listing after the first `k` steps of the compaction loop over
      `sorted`, whose wanted rewrites are `rewrites`. */
  function RenumberFrom(posts: seq<ExtPost>, sorted: seq<ExtPost>, rewrites: seq<Option<string>>, refused: set<string>, k: nat): seq<ExtPost>
    requires k <= |sorted| == |rewrites|
  {
    if k == 0 then posts
    else RenumberStep(RenumberFrom(posts, sorted, rewrites, refused, k - 1), sorted[k - 1], rewrites[k - 1], refused)
  }

  /** Compaction runs only when orphans were deleted and the listing is not
      empty, and only when some post carries a number. */
  function Compacted(posts: seq<ExtPost>, refused: set<string>, hadOrphans: bool): seq<ExtPost>
  {
    var sorted := ByTime(posts);
    if hadOrphans && |posts| > 0 then
      match LowestNumber(sorted)
      case Some(lowest) => RenumberFrom(posts, sorted, Rewrites(sorted, lowest), refused, |sorted|)
      case None => posts
    else posts
  }

  lemma {:induction false} RenumberKeepsShape(posts: seq<ExtPost>, sorted: seq<ExtPost>, rewrites: seq<Option<string>>, refused: set<string>, k: nat)
    requires k <= |sorted| == |rewrites|
    ensures |RenumberFrom(posts, sorted, rewrites, refused, k)| == |posts|
    ensures forall j :: 0 <= j < |posts| ==>
      && RenumberFrom(posts, sorted, rewrites, refused, k)[j].ref == posts[j].ref
      && RenumberFrom(posts, sorted, rewrites, refused, k)[j].time == posts[j].time
  {
    if k > 0 {
      RenumberKeepsShape(posts, sorted, rewrites, refused, k - 1);
    }
  }

  /** Rewrites of other posts never touch post `j`: after the first `k`
      steps, post `j` (which is `sorted[i]`) has its own rewrite applied
      exactly when `i < k` and the remote side accepts it. */
  lemma {:induction false} RenumberedAt(posts: seq<ExtPost>, sorted: seq<ExtPost>, rewrites: seq<Option<string>>, refused: set<string>, k: nat, i: nat, j: nat)
    requires k <= |sorted| == |rewrites| && i < |sorted| && j < |posts|
    requires UniqueRefs(sorted) && sorted[i] == posts[j]
    ensures |RenumberFrom(posts, sorted, rewrites, refused, k)| == |posts|
    ensures RenumberFrom(posts, sorted, rewrites, refused, k)[j].message ==
      if i < k && rewrites[i].Some? && sorted[i].ref !in refused then rewrites[i].value else posts[j].message
  {
    RenumberKeepsShape(posts, sorted, rewrites, refused, k);
    if k > 0 {
      RenumberedAt(posts, sorted, rewrites, refused, k - 1, i, j);
      RenumberKeepsShape(posts, sorted, rewrites, refused, k - 1);
      var prev := RenumberFrom(posts, sorted, rewrites, refused, k - 1);
      assert prev[j].ref == posts[j].ref;
      if k - 1 != i {
        assert sorted[k - 1].ref != sorted[i].ref;
      }
    }
  }

  /** Post `j` of the listing sits at position `i` of the time order, on a
      listing with distinct references where some post carries a number. */
  predicate CompactionSite(posts: seq<ExtPost>, i: nat, j: nat)
  {
    UniqueRefs(posts) && NumbersOf(posts) != {} && i < |posts| && j < |posts| && ByTime(posts)[i] == posts[j]
  }

  /** `after` is what compaction should make of post `p`: a numbered post
      whose rewrite the remote side accepted carries `expected` before its
      unchanged text; any other post keeps its message. */
  predicate RenumberedTo(after: ExtPost, p: ExtPost, refused: set<string>, expected: int)
  {
    var d := ParsePost(p.message);
    && (Numbered(d.number) && p.ref !in refused ==> ParsePost(after.message) == Decoded(Some(expected), d.text))
    && (!Numbered(d.number) || p.ref in refused ==> after.message == p.message)
  }

  /** `rewrite` is the rewrite post `p` wants when it should carry
      `expected`: none when it carries no number or already the expected one,
      otherwise a message carrying `expected` before the same text. */
  predicate WantedRewrite(rewrite: Option<string>, p: ExtPost, expected: int)
  {
    var d := ParsePost(p.message);
    && (rewrite.None? <==> !Numbered(d.number) || d.number == Some(expected))
    && (rewrite.Some? ==> ParsePost(rewrite.value) == Decoded(Some(expected), d.text))
  }

  /** The compaction property: the post at position `i` of the time order
      ends up carrying `lowest + i` with its text unchanged, unless it carried
      no number (then it is untouched) or the remote side refused the
      rewrite. */
  lemma {:induction false} CompactionNumbersConsecutively(posts: seq<ExtPost>, refused: set<string>, i: nat, j: nat)
      returns (lowest: int)
    requires CompactionSite(posts, i, j)
    ensures LowestNumber(ByTime(posts)) == Some(lowest)
    ensures |Compacted(posts, refused, true)| == |posts|
    ensures RenumberedTo(Compacted(posts, refused, true)[j], posts[j], refused, lowest + i)
  {
    var rewrite, after;
    lowest, rewrite, after := CompactedStep(posts, refused, i, j);
    MessageOutcome(after, rewrite, posts[j], refused, lowest, i);
  }

  /** What one post's message becomes, given the rewrite it wanted and
      whether the remote side refused it. */
  lemma {:induction false} MessageOutcome(after: ExtPost, rewrite: Option<string>, p: ExtPost, refused: set<string>, lowest: int, i: nat)
    requires after.message == if rewrite.Some? && p.ref !in refused then rewrite.value else p.message
    requires WantedRewrite(rewrite, p, lowest + i)
    ensures RenumberedTo(after, p, refused, lowest + i)
  {
    var d := ParsePost(p.message);
    if Numbered(d.number) && p.ref !in refused && rewrite.None? {
      assert after.message == p.message;
      assert d == Decoded(d.number, d.text);
    }
  }

  /** The compaction of one post, seen from outside: the number it should
      carry, the rewrite it wanted and what became of it. */
  lemma {:induction false} CompactedStep(posts: seq<ExtPost>, refused: set<string>, i: nat, j: nat)
      returns (lowest: int, rewrite: Option<string>, after: ExtPost)
    requires CompactionSite(posts, i, j)
    ensures LowestNumber(ByTime(posts)) == Some(lowest)
    ensures |Compacted(posts, refused, true)| == |posts|
    ensures after == Compacted(posts, refused, true)[j]
    ensures after.message == if rewrite.Some? && posts[j].ref !in refused then rewrite.value else posts[j].message
    ensures WantedRewrite(rewrite, posts[j], lowest + i)
  {
    var sorted, rw;
    sorted, lowest, rw := CompactedListing(posts, refused);
    RenumberedAt(posts, sorted, rw, refused, |sorted|, i, j);
    RewriteAt(sorted, lowest, i);
    rewrite := rw[i];
    after := RenumberFrom(posts, sorted, rw, refused, |sorted|)[j];
  }

  /** Compaction with orphans over a listing with numbers is the
      renumbering of the time order from its lowest number. */
  lemma {:induction false} CompactedListing(posts: seq<ExtPost>, refused: set<string>)
      returns (sorted: seq<ExtPost>, lowest: int, rw: seq<Option<string>>)
    requires UniqueRefs(posts) && NumbersOf(posts) != {}
    ensures sorted == ByTime(posts) && UniqueRefs(sorted) && |sorted| == |posts| == |rw|
    ensures LowestNumber(sorted) == Some(lowest) && rw == Rewrites(sorted, lowest)
    ensures Compacted(posts, refused, true) == RenumberFrom(posts, sorted, rw, refused, |sorted|)
  {
    sorted := ByTime(posts);
    ByTimeKeepsUnique(posts);
    NumbersPermuted(posts, sorted);
    lowest := LowestNumber(sorted).value;
    rw := Rewrites(sorted, lowest);
  }

  /** The rewrite the compaction loop wants for position `i`. */
  lemma {:induction false} RewriteAt(sorted: seq<ExtPost>, lowest: int, i: nat)
    requires i < |sorted|
    ensures WantedRewrite(Rewrites(sorted, lowest)[i], sorted[i], lowest + i)
  {
    RewriteRenumbers(sorted[i], lowest + i);
  }

  /** A permutation carries the same numbers. */
  lemma {:induction false} NumbersPermuted(a: seq<ExtPost>, b: seq<ExtPost>)
    requires multiset(a) == multiset(b)
    ensures NumbersOf(a) == NumbersOf(b)
  {
    NumbersOfMembers(a);
    NumbersOfMembers(b);
    forall n | n in NumbersOf(a) ensures n in NumbersOf(b) {
      var i :| 0 <= i < |a| && ParseNumber(a[i].message) == Some(n);
      assert a[i] in multiset(b);
      var k :| 0 <= k < |b| && b[k] == a[i];
    }
    forall n | n in NumbersOf(b) ensures n in NumbersOf(a) {
      var i :| 0 <= i < |b| && ParseNumber(b[i].message) == Some(n);
      assert b[i] in multiset(a);
      var k :| 0 <= k < |a| && a[k] == b[i];
    }
  }

  // ---------------------------------------------------------------------
  // Phase 3: sync by number
  // ---------------------------------------------------------------------

  /** The table, the next id and the in-memory snapshot of scheduled rows
      the sync loop matches against (rows it updates are updated in the
      snapshot too; rows it creates are not added to it). */
  datatype SyncState = SyncState(t: Table, nextId: nat, rows: seq<Row>)

  /** The snapshot agrees with the table: its rows are distinct scheduled
      rows of the table, and every id in use is below `nextId`. */
  predicate Consistent(s: SyncState) {
    && (forall id :: id in s.t ==> id < s.nextId)
    && DistinctIds(s.rows)
    && forall k :: 0 <= k < |s.rows| ==>
         s.rows[k].id in s.t && s.t[s.rows[k].id] == s.rows[k].entry && s.rows[k].entry.status == Scheduled
  }

  /** The position of the first snapshot row carrying number `n`. */
  function FindNumber(rows: seq<Row>, n: int): (r: Option<nat>)
    ensures r.Some? ==> r.value < |rows| && rows[r.value].entry.postNumber == Some(n)
    ensures r.Some? ==> forall k :: 0 <= k < r.value ==> rows[k].entry.postNumber != Some(n)
    ensures r.None? ==> forall k :: 0 <= k < |rows| ==> rows[k].entry.postNumber != Some(n)
  {
    if rows == [] then None
    else if rows[0].entry.postNumber == Some(n) then Some(0)
    else match FindNumber(rows[1..], n)
      case Some(k) => Some(k + 1)
      case None => None
  }

  /** The sync of one external post. */
  function SyncPost(s: SyncState, p: ExtPost, nowText: string): SyncState
  {
    var d := ParsePost(p.message);
    if !Numbered(d.number) then s
    else
      match FindNumber(s.rows, d.number.value)
      case Some(k) =>
        var row := s.rows[k];
        if row.entry.ref == Some(p.ref) then s
        else
          var e := row.entry.(ref := Some(p.ref), time := Some(p.time), text := d.text);
          SyncState(if row.id in s.t then s.t[row.id := s.t[row.id].(ref := Some(p.ref), time := Some(p.time), text := d.text)] else s.t,
                    s.nextId, s.rows[k := Row(row.id, e)])
      case None =>
        SyncState(s.t[s.nextId := Entry(nowText, d.text, Scheduled, d.number, Some(p.ref), Some(p.time), None, None)],
                  s.nextId + 1, s.rows)
  }

  /** The sync of the first `k` posts of `sorted`, in order. */
  function SyncAll(s: SyncState, sorted: seq<ExtPost>, nowText: string, k: nat): SyncState
    requires k <= |sorted|
  {
    if k == 0 then s else SyncPost(SyncAll(s, sorted, nowText, k - 1), sorted[k - 1], nowText)
  }

  /** The number a post carries when it is truthy. */
  predicate CarriesNumber(p: ExtPost, n: int) {
    n != 0 && ParseNumber(p.message) == Some(n)
  }

  /** The table holds a scheduled entry with number `n` and reference `ref`. */
  predicate Covered(t: Table, n: int, ref: string) {
    exists id :: id in t && t[id].status == Scheduled && t[id].postNumber == Some(n) && t[id].ref == Some(ref)
  }

  /** Syncing a post keeps the snapshot consistent, drops no entry, never
      changes an entry's status or number, and touches only entries that
      carry the post's number. */
  lemma {:induction false} SyncPostFrame(s: SyncState, p: ExtPost, nowText: string)
    requires Consistent(s)
    ensures var s2 := SyncPost(s, p, nowText);
      && Consistent(s2)
      && s.t.Keys <= s2.t.Keys
      && RowIds(s2.rows) == RowIds(s.rows)
      && (forall id :: id in s.t && id !in RowIds(s.rows) ==> s2.t[id] == s.t[id])
      && (forall id :: id in s.t && s.t[id].postNumber != ParseNumber(p.message) ==> s2.t[id] == s.t[id])
  {
    var s2 := SyncPost(s, p, nowText);
    var d := ParsePost(p.message);
    if Numbered(d.number) {
      match FindNumber(s.rows, d.number.value)
      case Some(k) =>
        var row := s.rows[k];
        if row.entry.ref != Some(p.ref) {
          forall j | 0 <= j < |s2.rows| && j != k ensures s2.rows[j].id != row.id {
            assert s.rows[j].id != s.rows[k].id;
          }
          assert forall j :: 0 <= j < |s.rows| ==> s2.rows[j].id == s.rows[j].id;
        }
      case None =>
    }
  }

  /** After a post with a truthy number is synced, the table holds a
      scheduled entry with the post's number and reference. */
  lemma {:induction false} SyncPostCovers(s: SyncState, p: ExtPost, nowText: string, n: int)
    requires Consistent(s) && CarriesNumber(p, n)
    ensures Covered(SyncPost(s, p, nowText).t, n, p.ref)
  {
    var s2 := SyncPost(s, p, nowText);
    match FindNumber(s.rows, n)
    case Some(k) =>
      assert s2.t[s.rows[k].id].postNumber == Some(n);
    case None =>
      assert s2.t[s.nextId].postNumber == Some(n);
  }

  function RowIds(rows: seq<Row>): set<nat> {
    set k | 0 <= k < |rows| :: rows[k].id
  }

  /** No two different posts carry the same truthy number. */
  predicate DistinctNumbers(posts: seq<ExtPost>) {
    forall p, q :: p in posts && q in posts && p != q && Numbered(ParseNumber(p.message)) ==>
      ParseNumber(p.message) != ParseNumber(q.message)
  }

  /** Syncing the first `k` posts keeps the snapshot consistent, drops no
      entry and leaves entries outside the snapshot untouched. */
  lemma {:induction false} SyncAllFrame(s: SyncState, sorted: seq<ExtPost>, nowText: string, k: nat)
    requires Consistent(s) && k <= |sorted|
    ensures Consistent(SyncAll(s, sorted, nowText, k))
    ensures s.t.Keys <= SyncAll(s, sorted, nowText, k).t.Keys
    ensures RowIds(SyncAll(s, sorted, nowText, k).rows) == RowIds(s.rows)
    ensures forall id :: id in s.t && id !in RowIds(s.rows) ==> SyncAll(s, sorted, nowText, k).t[id] == s.t[id]
  {
    if k > 0 {
      SyncAllFrame(s, sorted, nowText, k - 1);
      SyncPostFrame(SyncAll(s, sorted, nowText, k - 1), sorted[k - 1], nowText);
    }
  }

  /** The sync postcondition: when the posts carry distinct numbers, after
      syncing the first `k` of them every one with a truthy number has a
      scheduled entry with that number and its reference. */
  lemma {:induction false} SyncAllCovers(s: SyncState, sorted: seq<ExtPost>, nowText: string, k: nat)
    requires Consistent(s) && DistinctNumbers(sorted) && k <= |sorted|
    ensures forall i, n :: 0 <= i < k && CarriesNumber(sorted[i], n) ==> Covered(SyncAll(s, sorted, nowText, k).t, n, sorted[i].ref)
  {
    if k > 0 {
      SyncAllCovers(s, sorted, nowText, k - 1);
      SyncAllFrame(s, sorted, nowText, k - 1);
      var s1 := SyncAll(s, sorted, nowText, k - 1);
      var p := sorted[k - 1];
      SyncPostFrame(s1, p, nowText);
      var s2 := SyncAll(s, sorted, nowText, k);
      forall i, n | 0 <= i < k && CarriesNumber(sorted[i], n)
        ensures Covered(s2.t, n, sorted[i].ref)
      {
        if i < k - 1 && p != sorted[i] {
          var id :| id in s1.t && s1.t[id].status == Scheduled && s1.t[id].postNumber == Some(n) && s1.t[id].ref == Some(sorted[i].ref);
          assert ParseNumber(p.message) != Some(n);
          assert s2.t[id] == s1.t[id];
        } else {
          SyncPostCovers(s1, p, nowText, n);
        }
      }
    }
  }

  // ---------------------------------------------------------------------
  // Phase 4: hole-filling
  // ---------------------------------------------------------------------

  /** A move of the post carrying `number` onto `slot`. */
  datatype Relocation = Relocation(number: int, slot: int)

  function Abs(x: int): nat { if x < 0 then -x else x }

  /** A post more than a minute away from its slot is moved. */
  predicate NeedsMove(p: ExtPost, slot: int) {
    Abs(p.time - slot) > 60
  }

  /** The moves the loop makes, one per post in time order: the post at
      position `i` is paired with the `i`-th canonical slot (`zip` stops at
      the shorter list), and only a post with a truthy number is moved. */
  function Relocations(sorted: seq<ExtPost>, slots: seq<int>): (r: seq<Option<Relocation>>)
    ensures |r| == |sorted|
    ensures forall i :: 0 <= i < |sorted| ==>
      (r[i].Some? <==> i < |slots| && NeedsMove(sorted[i], slots[i]) && Numbered(ParseNumber(sorted[i].message)))
    ensures forall i :: 0 <= i < |sorted| && r[i].Some? ==>
      ParseNumber(sorted[i].message) == Some(r[i].value.number) && i < |slots| && r[i].value.slot == slots[i]
  {
    seq(|sorted|, i requires 0 <= i < |sorted| =>
      if i < |slots| && NeedsMove(sorted[i], slots[i]) && Numbered(ParseNumber(sorted[i].message))
      then Some(Relocation(ParseNumber(sorted[i].message).value, slots[i]))
      else None)
  }

  /** One external move: `update_scheduled_post(p.ref, p.message, slot)`;
      a refused reference leaves the listing as it was. Only the time of
      `p`'s own post changes. */
  function MoveStep(prev: seq<ExtPost>, p: ExtPost, target: Option<Relocation>, refused: set<string>): (r: seq<ExtPost>)
    ensures |r| == |prev|
    ensures forall j :: 0 <= j < |prev| ==> r[j].ref == prev[j].ref
    ensures forall j :: 0 <= j < |prev| ==>
      (r[j].message == if prev[j].ref == p.ref && target.Some? && p.ref !in refused then p.message else prev[j].message)
    ensures forall j :: 0 <= j < |prev| ==>
      (r[j].time == if prev[j].ref == p.ref && target.Some? && p.ref !in refused then target.value.slot else prev[j].time)
  {
    if target.Some? && p.ref in Refs(prev) && p.ref !in refused then Updated(prev, p.ref, p.message, Some(target.value.slot))
    else prev
  }

  /** The listing after the first `k` external moves. */
  function MovedFrom(posts: seq<ExtPost>, sorted: seq<ExtPost>, targets: seq<Option<Relocation>>, refused: set<string>, k: nat): seq<ExtPost>
    requires k <= |sorted| == |targets|
  {
    if k == 0 then posts
    else MoveStep(MovedFrom(posts, sorted, targets, refused, k - 1), sorted[k - 1], targets[k - 1], refused)
  }

  /** The table after the first `k` local moves (`UPDATE ... WHERE
      post_number = ?`, which the remote outcome does not affect). */
  function RetimedFrom(t: Table, targets: seq<Option<Relocation>>, k: nat): Table
    requires k <= |targets|
  {
    if k == 0 then t
    else
      var prev := RetimedFrom(t, targets, k - 1);
      match targets[k - 1]
      case Some(m) => RetimeNumber(prev, m.number, m.slot)
      case None => prev
  }

  /** Hole-filling as a whole: with a slot planner and a non-empty listing,
      the posts in time order are paired with the canonical slots. */
  function FillHoles(t: Table, posts: seq<ExtPost>, hasScheduler: bool, ws: seq<int>, now: int, skip: int -> bool, refused: set<string>): (Table, seq<ExtPost>)
  {
    if hasScheduler && |posts| > 0 then
      var sorted := ByTime(posts);
      var targets := Relocations(sorted, CanonicalSlots(ws, now, skip, |posts|));
      (RetimedFrom(t, targets, |targets|), MovedFrom(posts, sorted, targets, refused, |sorted|))
    else (t, posts)
  }

  /** Post `j` (which is `sorted[i]`) keeps its reference and message, and
      after the first `k` moves its time is its own target's slot exactly
      when `i < k`, it has a target and the remote side accepts it. */
  lemma {:induction false} MovedAt(posts: seq<ExtPost>, sorted: seq<ExtPost>, targets: seq<Option<Relocation>>, refused: set<string>, k: nat, i: nat, j: nat)
    requires k <= |sorted| == |targets| && i < |sorted| && j < |posts|
    requires UniqueRefs(sorted) && sorted[i] == posts[j]
    ensures |MovedFrom(posts, sorted, targets, refused, k)| == |posts|
    ensures MovedFrom(posts, sorted, targets, refused, k)[j].ref == posts[j].ref
    ensures MovedFrom(posts, sorted, targets, refused, k)[j].message == posts[j].message
    ensures MovedFrom(posts, sorted, targets, refused, k)[j].time ==
      if i < k && targets[i].Some? && posts[j].ref !in refused then targets[i].value.slot else posts[j].time
  {
    if k > 0 {
      MovedAt(posts, sorted, targets, refused, k - 1, i, j);
      if k - 1 != i {
        assert sorted[k - 1].ref != sorted[i].ref;
      }
    }
  }

  /** The hole-filling property: a numbered post whose move the remote side
      accepts ends within a minute of the canonical slot of its position in
      time order; no post changes reference or message. */
  lemma {:induction false} FillHolesPlaces(t: Table, posts: seq<ExtPost>, ws: seq<int>, now: int, skip: int -> bool, refused: set<string>, i: nat, j: nat)
    requires UniqueRefs(posts) && i < |posts| && j < |posts| && ByTime(posts)[i] == posts[j]
    ensures |FillHoles(t, posts, true, ws, now, skip, refused).1| == |posts|
    ensures FillHoles(t, posts, true, ws, now, skip, refused).1[j].ref == posts[j].ref
    ensures FillHoles(t, posts, true, ws, now, skip, refused).1[j].message == posts[j].message
    ensures
      var slots := CanonicalSlots(ws, now, skip, |posts|);
      i < |slots| && Numbered(ParseNumber(posts[j].message)) && posts[j].ref !in refused ==>
        Abs(FillHoles(t, posts, true, ws, now, skip, refused).1[j].time - slots[i]) <= 60
  {
    var sorted := ByTime(posts);
    ByTimeKeepsUnique(posts);
    var slots := CanonicalSlots(ws, now, skip, |posts|);
    var targets := Relocations(sorted, slots);
    MovedAt(posts, sorted, targets, refused, |sorted|, i, j);
  }

  /** Local moves change only times, and only to the slot of a move of the
      entry's number. */
  lemma {:induction false} RetimedOnlyTimes(t: Table, targets: seq<Option<Relocation>>, k: nat)
    requires k <= |targets|
    ensures RetimedFrom(t, targets, k).Keys == t.Keys
    ensures forall id :: id in t ==> RetimedFrom(t, targets, k)[id] == t[id].(time := RetimedFrom(t, targets, k)[id].time)
    ensures forall id :: id in t && RetimedFrom(t, targets, k)[id].time != t[id].time ==>
      exists a :: (&& 0 <= a < k && targets[a].Some? && t[id].postNumber == Some(targets[a].value.number)
                   && RetimedFrom(t, targets, k)[id].time == Some(targets[a].value.slot))
  {
    if k > 0 {
      RetimedOnlyTimes(t, targets, k - 1);
      var prev := RetimedFrom(t, targets, k - 1);
      var r := RetimedFrom(t, targets, k);
      forall id | id in t && r[id].time != t[id].time
        ensures exists a :: (&& 0 <= a < k && targets[a].Some? && t[id].postNumber == Some(targets[a].value.number)
                             && r[id].time == Some(targets[a].value.slot))
      {
        if r[id].time == prev[id].time {
          var a :| 0 <= a < k - 1 && targets[a].Some? && t[id].postNumber == Some(targets[a].value.number)
            && prev[id].time == Some(targets[a].value.slot);
        } else {
          assert targets[k - 1].Some?;
        }
      }
    }
  }

  lemma {:induction false} RetimedKeepsNumbers(t: Table, targets: seq<Option<Relocation>>, k: nat)
    requires k <= |targets|
    ensures RetimedFrom(t, targets, k).Keys == t.Keys
    ensures forall id :: id in t ==> RetimedFrom(t, targets, k)[id].postNumber == t[id].postNumber
  {
    if k > 0 {
      RetimedKeepsNumbers(t, targets, k - 1);
    }
  }

  /** An entry carrying the number of move `a` ends at that move's slot
      when no later move names the same number. */
  lemma {:induction false} RetimedAt(t: Table, targets: seq<Option<Relocation>>, k: nat, a: nat, id: nat)
    requires a < k <= |targets| && targets[a].Some? && id in t && t[id].postNumber == Some(targets[a].value.number)
    requires forall b :: a < b < k && targets[b].Some? ==> targets[b].value.number != targets[a].value.number
    ensures id in RetimedFrom(t, targets, k) && RetimedFrom(t, targets, k)[id].time == Some(targets[a].value.slot)
  {
    var last := k - 1;
    RetimedKeepsNumbers(t, targets, last);
    RetimedStep(t, targets, k, id);
    if last != a {
      RetimedAt(t, targets, last, a, id);
    }
  }

  /** One step of hole-filling seen from one entry: it takes the slot of
      move `k - 1` when it carries that move's number. */
  lemma {:induction false} RetimedStep(t: Table, targets: seq<Option<Relocation>>, k: nat, id: nat)
    requires 0 < k <= |targets| && id in RetimedFrom(t, targets, k - 1)
    ensures id in RetimedFrom(t, targets, k)
    ensures var prev := RetimedFrom(t, targets, k - 1)[id];
      RetimedFrom(t, targets, k)[id].time ==
        if targets[k - 1].Some? && prev.postNumber == Some(targets[k - 1].value.number)
        then Some(targets[k - 1].value.slot) else prev.time
  {
  }

  /** When the moves name distinct numbers, every entry carrying a moved
      post's number ends at that post's slot. */
  lemma {:induction false} RetimedPlaces(t: Table, targets: seq<Option<Relocation>>)
    requires forall a, b :: 0 <= a < b < |targets| && targets[a].Some? && targets[b].Some? ==> targets[a].value.number != targets[b].value.number
    ensures forall a, id :: 0 <= a < |targets| && targets[a].Some? && id in t && t[id].postNumber == Some(targets[a].value.number) ==>
      id in RetimedFrom(t, targets, |targets|) && RetimedFrom(t, targets, |targets|)[id].time == Some(targets[a].value.slot)
  {
    forall a, id | 0 <= a < |targets| && targets[a].Some? && id in t && t[id].postNumber == Some(targets[a].value.number)
      ensures id in RetimedFrom(t, targets, |targets|) && RetimedFrom(t, targets, |targets|)[id].time == Some(targets[a].value.slot)
    {
      RetimedAt(t, targets, |targets|, a, id);
    }
  }

  // ---------------------------------------------------------------------
  // The post counter after the orphan pass
  // ---------------------------------------------------------------------

  /** The counter as the page leaves it: lowered by the number of deleted
      orphans, whether or not compaction then renumbers the listing. */
  function AsWrittenCounter(counter: int, removed: nat): (c: int)
    ensures c <= counter && (removed > 0 ==> c < counter)
  {
    counter - removed
  }

  /** The counter the renumbering calls for: when compaction runs, the
      listing is renumbered from its lowest number over `|posts|` positions,
      so the next number is the one after that range; otherwise the counter
      is lowered by the number of deleted orphans. */
  function CompactedCounter(counter: int, removed: nat, posts: seq<ExtPost>): int
  {
    if removed > 0 && |posts| > 0 && LowestNumber(ByTime(posts)).Some?
    then LowestNumber(ByTime(posts)).value + |posts|
    else counter - removed
  }

  /** Counterexample to the as-written counter: entries #n, #n+1, #n+2 are
      scheduled and the counter is n+3; #n has left the external schedule
      (it was published there), which still lists #n+1 and #n+2 in time
      order. The pass deletes #n and lowers the counter to
      n+2, and compaction, starting from the lowest remaining number n+1,
      rewrites nothing, so #n+2 is still on the schedule: the next number
      handed out repeats it. The corrected counter stays n+3, a number no
      post carries. */
  lemma {:induction false} AsWrittenCounterRepeatsLiveNumber(n: int, e1: Entry, e2: Entry, e3: Entry, p2: ExtPost, p3: ExtPost, refused: set<string>)
    requires n > 0
    requires e1.status == Scheduled && e1.postNumber == Some(n)
    requires e2.status == Scheduled && e2.postNumber == Some(n + 1)
    requires e3.status == Scheduled && e3.postNumber == Some(n + 2)
    requires ParseNumber(p2.message) == Some(n + 1) && ParseNumber(p3.message) == Some(n + 2) && p2.time <= p3.time
    ensures
      var t := map[1 := e1, 2 := e2, 3 := e3];
      var removed := |OrphanIds(t, NumbersOf([p2, p3]))|;
      && removed == 1
      && AsWrittenCounter(n + 3, removed) == n + 2
      && n + 2 in NumbersOf(Compacted([p2, p3], refused, removed > 0))
      && CompactedCounter(n + 3, removed, [p2, p3]) == n + 3
      && n + 3 !in NumbersOf(Compacted([p2, p3], refused, removed > 0))
  {
    var posts := [p2, p3];
    NumbersOfPair(p2, p3, n + 1, n + 2);
    OnlyFirstOrphaned(n, e1, e2, e3);
    CompactPair(p2, p3, n + 1, refused);
    var after := Compacted(posts, refused, true);
    assert after == posts;
    assert NumbersOf(after) == {n + 1, n + 2};
    assert CompactedCounter(n + 3, 1, posts) == (n + 1) + 2;
  }

  lemma {:induction false} OnlyFirstOrphaned(n: int, e1: Entry, e2: Entry, e3: Entry)
    requires e1.status == Scheduled && e1.postNumber == Some(n) && n > 0
    requires e2.status == Scheduled && e2.postNumber == Some(n + 1)
    requires e3.status == Scheduled && e3.postNumber == Some(n + 2)
    ensures OrphanIds(map[1 := e1, 2 := e2, 3 := e3], {n + 1, n + 2}) == {1}
  {
    var t := map[1 := e1, 2 := e2, 3 := e3];
    assert IsOrphan(t[1], {n + 1, n + 2});
    assert !IsOrphan(t[2], {n + 1, n + 2}) && !IsOrphan(t[3], {n + 1, n + 2});
  }

  lemma {:induction false} NumbersOfPair(p: ExtPost, q: ExtPost, x: int, y: int)
    requires ParseNumber(p.message) == Some(x) && ParseNumber(q.message) == Some(y)
    ensures NumbersOf([p, q]) == {x, y}
  {
    assert [p, q][..1] == [p];
    assert [p][..0] == [];
    assert NumbersOf([p]) == NumbersOf([]) + {x};
    assert NumbersOf([p, q]) == NumbersOf([p]) + {y};
  }

  /** Two posts in time order already numbered `x` and `x + 1` are left
      alone by compaction. */
  lemma {:induction false} CompactPair(p: ExtPost, q: ExtPost, x: int, refused: set<string>)
    requires p.time <= q.time && x > 0
    requires ParseNumber(p.message) == Some(x) && ParseNumber(q.message) == Some(x + 1)
    ensures LowestNumber(ByTime([p, q])) == Some(x)
    ensures Compacted([p, q], refused, true) == [p, q]
  {
    var posts := [p, q];
    SortOfSorted(posts, ExternalScheduler.TimeLe);
    assert ByTime(posts) == posts;
    assert posts[..1] == [p] && [p][..0] == [];
    assert LowestNumber([p]) == Some(x);
    assert LowestNumber(posts) == Some(x);
    var rw := Rewrites(posts, x);
    RewriteRenumbers(p, x);
    RewriteRenumbers(q, x + 1);
    assert ParsePost(p.message).number == Some(x);
    assert ParsePost(q.message).number == Some(x + 1);
    assert rw[0] == None && rw[1] == None;
    assert RenumberFrom(posts, posts, rw, refused, 1) == posts;
    assert RenumberFrom(posts, posts, rw, refused, 2) == posts;
  }

  /** With the corrected counter, once compaction has run and the remote side
      accepted every rewrite, every truthy number on the listing lies between
      the lowest number and the counter: the next number handed out is
      fresh. */
  lemma {:induction false} CompactedCounterIsFresh(counter: int, removed: nat, posts: seq<ExtPost>, refused: set<string>)
    requires removed > 0 && UniqueRefs(posts) && NumbersOf(posts) != {}
    requires forall j :: 0 <= j < |posts| ==> posts[j].ref !in refused
    ensures LowestNumber(ByTime(posts)).Some?
    ensures forall n :: n in NumbersOf(Compacted(posts, refused, true)) && n != 0 ==>
      LowestNumber(ByTime(posts)).value <= n < CompactedCounter(counter, removed, posts)
  {
    var sorted := ByTime(posts);
    NumbersPermuted(posts, sorted);
    var lowest := LowestNumber(sorted).value;
    var after := Compacted(posts, refused, true);
    forall n | n in NumbersOf(after) && n != 0
      ensures lowest <= n < lowest + |posts|
    {
      CompactedNumberInRange(posts, refused, n);
    }
  }

  /** A truthy number on the compacted listing is the lowest number plus
      the post's place in time order. */
  lemma {:induction false} CompactedNumberInRange(posts: seq<ExtPost>, refused: set<string>, n: int)
    requires UniqueRefs(posts) && NumbersOf(posts) != {}
    requires forall j :: 0 <= j < |posts| ==> posts[j].ref !in refused
    requires n in NumbersOf(Compacted(posts, refused, true)) && n != 0
    ensures LowestNumber(ByTime(posts)).Some?
    ensures LowestNumber(ByTime(posts)).value <= n < LowestNumber(ByTime(posts)).value + |posts|
  {
    var i, j := CompactedWitness(posts, refused, n);
    var lowest := CompactionNumbersConsecutively(posts, refused, i, j);
    assert posts[j].ref !in refused;
    NumberOfRenumbered(Compacted(posts, refused, true)[j], posts[j], refused, lowest + i, n);
  }

  /** A number on the compacted listing sits on some post `j`, which is
      post `i` of the time order. */
  lemma {:induction false} CompactedWitness(posts: seq<ExtPost>, refused: set<string>, n: int) returns (i: nat, j: nat)
    requires UniqueRefs(posts) && NumbersOf(posts) != {}
    requires n in NumbersOf(Compacted(posts, refused, true))
    ensures CompactionSite(posts, i, j) && j < |Compacted(posts, refused, true)|
    ensures ParseNumber(Compacted(posts, refused, true)[j].message) == Some(n)
  {
    var sorted, lowest, rw := CompactedListing(posts, refused);
    RenumberKeepsShape(posts, sorted, rw, refused, |sorted|);
    j := NumberCarrier(Compacted(posts, refused, true), n);
    i := PermutedIndex(posts, sorted, j);
  }

  /** A number of a listing is carried by one of its posts. */
  lemma {:induction false} NumberCarrier(posts: seq<ExtPost>, n: int) returns (j: nat)
    requires n in NumbersOf(posts)
    ensures j < |posts| && ParseNumber(posts[j].message) == Some(n)
  {
    NumbersOfMembers(posts);
    j :| 0 <= j < |posts| && ParseNumber(posts[j].message) == Some(n);
  }

  /** Every post of a listing has a place in any permutation of it. */
  lemma {:induction false} PermutedIndex(a: seq<ExtPost>, b: seq<ExtPost>, j: nat) returns (i: nat)
    requires multiset(a) == multiset(b) && j < |a|
    ensures i < |b| && b[i] == a[j]
  {
    assert a[j] in multiset(b);
    i :| 0 <= i < |b| && b[i] == a[j];
  }

  /** The truthy number a renumbered post carries is the expected one. */
  lemma {:induction false} NumberOfRenumbered(after: ExtPost, p: ExtPost, refused: set<string>, expected: int, n: int)
    requires RenumberedTo(after, p, refused, expected) && p.ref !in refused
    requires ParseNumber(after.message) == Some(n) && n != 0
    ensures n == expected
  {
    assert ParsePost(after.message).number == Some(n);
  }

  // ---------------------------------------------------------------------
  // The whole visit
  // ---------------------------------------------------------------------

  /** The state a visit reads and writes: the table, the post counter, the
      next id and the external listing. */
  datatype PassState = PassState(t: Table, counter: int, nextId: nat, posts: seq<ExtPost>)

  /** The orphans of a state: scheduled entries whose number the listing
      does not carry. */
  function Orphans(st: PassState): set<nat> {
    OrphanIds(st.t, NumbersOf(st.posts))
  }

  /** The listing the sync phase reads: the compacted one when orphans were
      deleted, the original otherwise. */
  function SyncedListing(st: PassState, refused: set<string>): seq<ExtPost> {
    Compacted(st.posts, refused, |Orphans(st)| > 0)
  }

  /** One visit of the scheduled-posts page; the counter ends where the
      orphan phase lowered it. Without an external handler the page changes
      nothing. */
  function Pass(st: PassState, hasHandler: bool, hasScheduler: bool, ws: seq<int>, now: int, skip: int -> bool,
                nowText: string, refused: set<string>): PassState
  {
    if !hasHandler then st
    else
      var t1 := st.t - Orphans(st);
      var listing := SyncedListing(st, refused);
      var synced := SyncAll(SyncState(t1, st.nextId, ScheduledRows(t1, st.nextId)), ByTime(listing), nowText, |listing|);
      var filled := FillHoles(synced.t, listing, hasScheduler, ws, now, skip, refused);
      PassState(filled.0, AsWrittenCounter(st.counter, |Orphans(st)|), synced.nextId, filled.1)
  }

  lemma {:induction false} DistinctNumbersPermuted(a: seq<ExtPost>, b: seq<ExtPost>)
    requires multiset(a) == multiset(b) && DistinctNumbers(a)
    ensures DistinctNumbers(b)
  {
    forall p | p in b ensures p in a {
      assert p in multiset(b);
    }
  }

  /** The snapshot the sync phase starts from is consistent with the table. */
  lemma {:induction false} InitialSyncConsistent(t: Table, nextId: nat)
    requires forall id :: id in t ==> id < nextId
    ensures Consistent(SyncState(t, nextId, ScheduledRows(t, nextId)))
  {
    var rows := ScheduledRows(t, nextId);
    forall k | 0 <= k < |rows| ensures rows[k].id in t && t[rows[k].id] == rows[k].entry && rows[k].entry.status == Scheduled {
      assert rows[k] in rows;
    }
  }

  /** A visit deletes exactly the orphans: an entry of the table survives
      exactly when it is not an orphan, and every entry it creates is
      scheduled with a fresh id. */
  lemma {:induction false} PassDeletesExactlyOrphans(st: PassState, hasScheduler: bool, ws: seq<int>, now: int, skip: int -> bool, nowText: string, refused: set<string>)
    requires forall id :: id in st.t ==> id < st.nextId
    ensures var after := Pass(st, true, hasScheduler, ws, now, skip, nowText, refused);
      && (forall id :: id in st.t ==> (id in after.t <==> id !in Orphans(st)))
      && (forall id :: id in after.t && id !in st.t ==> st.nextId <= id < after.nextId && after.t[id].status == Scheduled)
  {
    var t1 := st.t - Orphans(st);
    var listing := SyncedListing(st, refused);
    var s0 := SyncState(t1, st.nextId, ScheduledRows(t1, st.nextId));
    InitialSyncConsistent(t1, st.nextId);
    var synced := SyncAll(s0, ByTime(listing), nowText, |listing|);
    SyncAllFrame(s0, ByTime(listing), nowText, |listing|);
    SyncAllFresh(s0, ByTime(listing), nowText, |listing|);
    var targets := Relocations(ByTime(listing), CanonicalSlots(ws, now, skip, |listing|));
    RetimedOnlyTimes(synced.t, targets, |targets|);
  }

  /** Entries the sync creates are scheduled and take ids from `nextId` on. */
  lemma {:induction false} SyncAllFresh(s: SyncState, sorted: seq<ExtPost>, nowText: string, k: nat)
    requires Consistent(s) && k <= |sorted|
    ensures s.nextId <= SyncAll(s, sorted, nowText, k).nextId
    ensures forall id :: id in SyncAll(s, sorted, nowText, k).t && id !in s.t ==>
      s.nextId <= id < SyncAll(s, sorted, nowText, k).nextId && SyncAll(s, sorted, nowText, k).t[id].status == Scheduled
  {
    if k > 0 {
      var prev := SyncAll(s, sorted, nowText, k - 1);
      SyncAllFresh(s, sorted, nowText, k - 1);
      SyncAllFrame(s, sorted, nowText, k - 1);
      SyncPostFresh(prev, sorted[k - 1], nowText);
      assert SyncAll(s, sorted, nowText, k) == SyncPost(prev, sorted[k - 1], nowText);
    }
  }

  /** One post's sync creates at most the entry `nextId`, scheduled. */
  lemma {:induction false} SyncPostFresh(s: SyncState, p: ExtPost, nowText: string)
    requires forall id :: id in s.t ==> id < s.nextId
    ensures var s2 := SyncPost(s, p, nowText);
      && s.nextId <= s2.nextId && s.t.Keys <= s2.t.Keys
      && forall id :: id in s2.t && id !in s.t ==> s.nextId <= id < s2.nextId && s2.t[id].status == Scheduled
  {
  }

  /** After a visit, every post of the listing the sync phase read that
      carries a truthy number has a scheduled entry with that number and the
      post's reference, provided no two posts share a number. */
  lemma {:induction false} PassSyncsListing(st: PassState, hasScheduler: bool, ws: seq<int>, now: int, skip: int -> bool, nowText: string, refused: set<string>, p: ExtPost, n: int)
    requires forall id :: id in st.t ==> id < st.nextId
    requires DistinctNumbers(SyncedListing(st, refused))
    requires p in SyncedListing(st, refused) && CarriesNumber(p, n)
    ensures Covered(Pass(st, true, hasScheduler, ws, now, skip, nowText, refused).t, n, p.ref)
  {
    var t1 := st.t - Orphans(st);
    var listing := SyncedListing(st, refused);
    var sorted := ByTime(listing);
    var s0 := SyncState(t1, st.nextId, ScheduledRows(t1, st.nextId));
    InitialSyncConsistent(t1, st.nextId);
    DistinctNumbersPermuted(listing, sorted);
    SyncAllCovers(s0, sorted, nowText, |listing|);
    assert p in multiset(sorted);
    var i :| 0 <= i < |sorted| && sorted[i] == p;
    var synced := SyncAll(s0, sorted, nowText, |listing|);
    assert Covered(synced.t, n, p.ref);
    var id :| id in synced.t && synced.t[id].status == Scheduled && synced.t[id].postNumber == Some(n) && synced.t[id].ref == Some(p.ref);
    var targets := Relocations(sorted, CanonicalSlots(ws, now, skip, |listing|));
    RetimedOnlyTimes(synced.t, targets, |targets|);
    if hasScheduler && |listing| > 0 {
      var t2 := RetimedFrom(synced.t, targets, |targets|);
      assert t2[id] == synced.t[id].(time := t2[id].time);
    }
  }
}
