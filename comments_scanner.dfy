/** The hourly comment scan: monitored posts, recent comments minus the
    dismissed ones, the split into comments already stored and truly new
    ones, the retry queue, the AI filter in batches of 30, and the handling
    of the filter's results (store, hide, queue). The scanner's store keeps
    the comment ids it has saved, the dismissed ids and the retry queue. */
module CommentsScanning {
  import opened Wrappers
  import opened Collections
  import opened AiCommentFilter

  const ScanBatchSize: nat := 30

  /** A comment as `add_comment` stores it, with the AI fields added. */
  datatype SavedComment = SavedComment(comment: Comment, shouldHide: Json, reason: Json, explanation: Json)

  datatype ScanStats = ScanStats(postsChecked: nat, commentsFound: nat, commentsFiltered: nat, commentsHidden: nat,
                                 political: nat, hate: nat, errors: nat)

  const NoStats := ScanStats(0, 0, 0, 0, 0, 0, 0)

  /** Python truthiness of a decoded JSON value. */
  predicate Truthy(j: Json)
  {
    match j
    case JNull => false
    case JBool(b) => b
    case JNum(n) => n != 0
    case JStr(s) => s != []
    case JArr(xs) => xs != []
    case JObj(fs) => fs != []
  }

  /** The dismissed filter: drops every comment whose id was dismissed and
      keeps the others in order. */
  function DropDismissed(comments: seq<Comment>, dismissed: set<string>): (r: seq<Comment>)
    ensures forall c :: c in r ==> c in comments && c.commentId !in dismissed
    ensures forall c :: c in comments && c.commentId !in dismissed ==> c in r
  {
    FilterMembers(comments, (c: Comment) => c.commentId !in dismissed);
    Filter(comments, (c: Comment) => c.commentId !in dismissed)
  }

  /** The comments whose id the store does not hold yet, in order. */
  function Unsaved(comments: seq<Comment>, saved: set<string>): (r: seq<Comment>)
    ensures forall c :: c in r <==> c in comments && c.commentId !in saved
  {
    FilterMembers(comments, (c: Comment) => c.commentId !in saved);
    Filter(comments, (c: Comment) => c.commentId !in saved)
  }

  /** `{c['comment_id']: c for c in comments}.get(id)`: the last comment
      with that id; a non-string id matches nothing. */
  function Find(comments: seq<Comment>, id: Json): (r: Option<Comment>)
    ensures r.Some? ==> r.value in comments && id == JStr(r.value.commentId)
    ensures r.None? ==> forall c :: c in comments ==> id != JStr(c.commentId)
  {
    if comments == [] then None
    else if id == JStr(comments[|comments| - 1].commentId) then Some(comments[|comments| - 1])
    else Find(comments[..|comments| - 1], id)
  }

  function QueueIds(queue: seq<Comment>): set<string>
  {
    set c | c in queue :: c.commentId
  }

  lemma {:induction false} QueueIdsSnoc(queue: seq<Comment>, c: Comment)
    ensures QueueIds(queue + [c]) == QueueIds(queue) + {c.commentId}
  {
    assert forall x :: x in queue + [c] <==> x in queue || x == c;
    assert c in queue + [c];
  }

  /** `remove_from_queue`. */
  function Dequeue(queue: seq<Comment>, id: string): (q: seq<Comment>)
    ensures QueueIds(q) == QueueIds(queue) - {id}
  {
    FilterMembers(queue, (c: Comment) => c.commentId != id);
    Filter(queue, (c: Comment) => c.commentId != id)
  }

  /** `queue_comment`: the comment is queued once, replacing an entry with
      the same id. */
  function Enqueue(queue: seq<Comment>, c: Comment): (q: seq<Comment>)
    ensures QueueIds(q) == QueueIds(queue) + {c.commentId}
  {
    var rest := Dequeue(queue, c.commentId);
    QueueIdsSnoc(rest, c);
    rest + [c]
  }

  /** What the result loop has built so far: the saved comments, the retry
      queue and the number of successful hides. */
  datatype Progress = Progress(saved: map<string, SavedComment>, queue: seq<Comment>, hidden: nat)

  /** The hide condition as written: flagged and newly added. */
  predicate HideAsWritten(shouldHide: Json, wasAdded: bool, wasQueued: bool)
  {
    Truthy(shouldHide) && wasAdded
  }

  /** The hide condition the retry queue needs: flagged, and newly added or
      coming back from the queue. */
  predicate HideWanted(shouldHide: Json, wasAdded: bool, wasQueued: bool)
  {
    Truthy(shouldHide) && (wasAdded || wasQueued)
  }

  /** One pass of `_process_filter_results`' loop; `corrected` picks the
      hide condition. `hideOk` holds the ids whose hide call succeeds. */
  function Step(p: Progress, r: FilterResult, comments: seq<Comment>, hideOk: set<string>, corrected: bool): Progress
  {
    match Find(comments, r.commentId)
    case None => p
    case Some(c) =>
      var id := c.commentId;
      var wasAdded := id !in p.saved;
      var saved := if wasAdded then p.saved[id := SavedComment(c, r.shouldHide, r.reason, r.explanation)] else p.saved;
      var wasQueued := id in QueueIds(p.queue);
      var attempt := if corrected then HideWanted(r.shouldHide, wasAdded, wasQueued)
                     else HideAsWritten(r.shouldHide, wasAdded, wasQueued);
      if attempt && id in hideOk then Progress(saved, Dequeue(p.queue, id), p.hidden + 1)
      else if attempt then Progress(saved, Enqueue(p.queue, c), p.hidden)
      else Progress(saved, Dequeue(p.queue, id), p.hidden)
  }

  function ProcessAll(p: Progress, results: seq<FilterResult>, comments: seq<Comment>, hideOk: set<string>, corrected: bool): Progress
  {
    if results == [] then p
    else Step(ProcessAll(p, results[..|results| - 1], comments, hideOk, corrected), results[|results| - 1], comments, hideOk, corrected)
  }

  /** One result: an unknown id changes nothing. For a known comment, its id
      is saved (with this result's verdict when it is new), it stays queued
      exactly when a hide was attempted and failed, the count grows exactly
      when a hide was attempted and succeeded, and no other id's queue
      entry changes. */
  lemma {:induction false} StepEffect(p: Progress, r: FilterResult, comments: seq<Comment>, hideOk: set<string>, corrected: bool)
    ensures Find(comments, r.commentId).None? ==> Step(p, r, comments, hideOk, corrected) == p
    ensures Find(comments, r.commentId).Some? ==>
      var c := Find(comments, r.commentId).value;
      var id := c.commentId;
      var after := Step(p, r, comments, hideOk, corrected);
      var wasAdded := id !in p.saved;
      var attempt := if corrected then HideWanted(r.shouldHide, wasAdded, id in QueueIds(p.queue))
                     else HideAsWritten(r.shouldHide, wasAdded, id in QueueIds(p.queue));
      && after.saved.Keys == p.saved.Keys + {id}
      && (wasAdded ==> after.saved[id] == SavedComment(c, r.shouldHide, r.reason, r.explanation))
      && (forall k :: k in p.saved ==> after.saved[k] == p.saved[k])
      && (id in QueueIds(after.queue) <==> attempt && id !in hideOk)
      && (forall k :: k != id ==> (k in QueueIds(after.queue) <==> k in QueueIds(p.queue)))
      && after.hidden == p.hidden + (if attempt && id in hideOk then 1 else 0)
  {
  }

  /** The hide count never exceeds the number of flagged results. */
  lemma {:induction false} HiddenBounded(p: Progress, results: seq<FilterResult>, comments: seq<Comment>, hideOk: set<string>, corrected: bool)
    ensures p.hidden <= ProcessAll(p, results, comments, hideOk, corrected).hidden
    ensures ProcessAll(p, results, comments, hideOk, corrected).hidden - p.hidden
            <= Count(results, (r: FilterResult) => Truthy(r.shouldHide))
  {
    if results != [] {
      var init := results[..|results| - 1];
      HiddenBounded(p, init, comments, hideOk, corrected);
      StepEffect(ProcessAll(p, init, comments, hideOk, corrected), results[|results| - 1], comments, hideOk, corrected);
    }
  }

  /** As written, a comment whose hide failed is queued after it was saved;
      when it comes back, `add_comment` reports it as not new, so no hide is
      attempted and it leaves the queue still visible. */
  lemma {:induction false} AsWrittenRetryNeverHides(p: Progress, r: FilterResult, comments: seq<Comment>, hideOk: set<string>)
    requires Find(comments, r.commentId).Some?
    requires Find(comments, r.commentId).value.commentId in p.saved
    requires Find(comments, r.commentId).value.commentId in QueueIds(p.queue)
    requires Truthy(r.shouldHide) && Find(comments, r.commentId).value.commentId in hideOk
    ensures Step(p, r, comments, hideOk, false).hidden == p.hidden
    ensures Find(comments, r.commentId).value.commentId !in QueueIds(Step(p, r, comments, hideOk, false).queue)
  {
    StepEffect(p, r, comments, hideOk, false);
  }

  /** With the corrected condition the queued comment is hidden when the
      hide succeeds and stays queued when it fails again. */
  lemma {:induction false} CorrectedRetryHides(p: Progress, r: FilterResult, comments: seq<Comment>, hideOk: set<string>)
    requires Find(comments, r.commentId).Some?
    requires Find(comments, r.commentId).value.commentId in QueueIds(p.queue)
    requires Truthy(r.shouldHide)
    ensures var id := Find(comments, r.commentId).value.commentId;
      && (id in hideOk ==> Step(p, r, comments, hideOk, true).hidden == p.hidden + 1
                           && id !in QueueIds(Step(p, r, comments, hideOk, true).queue))
      && (id !in hideOk ==> id in QueueIds(Step(p, r, comments, hideOk, true).queue))
  {
    StepEffect(p, r, comments, hideOk, true);
  }

  /** A concrete run of the as-written rule: comment "c1", saved and queued
      after a failed hide, is flagged again and the hide would succeed, yet
      it is neither hidden nor kept for another try. */
  lemma {:induction false} AsWrittenRetryExample()
    ensures var c := Comment("c1", "p1", "text", "");
      var p := Progress(map["c1" := SavedComment(c, JBool(true), JStr("hate"), JStr(""))], [c], 0);
      var r := FilterResult(JStr("c1"), JBool(true), JStr("hate"), JStr(""), false);
      var after := Step(p, r, [c], {"c1"}, false);
      after.hidden == 0 && after.queue == []
  {
    var c := Comment("c1", "p1", "text", "");
    assert Find([c], JStr("c1")) == Some(c);
    assert [c][..0] == [];
  }

  function IsFlaggedAs(r: FilterResult, reason: string): bool
  {
    Truthy(r.shouldHide) && r.reason == JStr(reason)
  }

  /** The results the filter returns for the comments handed to it. */
  function AiResults(hasClient: bool, comments: seq<Comment>, respond: seq<Comment> -> Result<string, string>,
                     decode: string -> Result<Json, string>): seq<FilterResult>
  {
    if hasClient then ResultsOf(Slices(comments, ScanBatchSize, 0), ModelFilter(respond, decode)) else []
  }

  class ScanStore {
    var saved: map<string, SavedComment>
    var dismissed: set<string>
    var queue: seq<Comment>

    constructor Open(stored: map<string, SavedComment>, dismissedIds: set<string>, queued: seq<Comment>)
      ensures saved == stored && dismissed == dismissedIds && queue == queued
    {
      saved := stored;
      dismissed := dismissedIds;
      queue := queued;
    }

    /** The loop that looks each comment up in the store: the ones not
        found, in order, and how many were found. */
    method SplitNewComments(comments: seq<Comment>) returns (unsaved: seq<Comment>, existing: nat)
      ensures unsaved == Unsaved(comments, saved.Keys)
      ensures existing + |unsaved| == |comments|
    {
      unsaved := [];
      existing := 0;
      for i := 0 to |comments|
        invariant unsaved == Unsaved(comments[..i], saved.Keys)
        invariant existing + |unsaved| == i
      {
        assert comments[..i + 1][..i] == comments[..i];
        if comments[i].commentId in saved {
          existing := existing + 1;
        } else {
          unsaved := unsaved + [comments[i]];
        }
      }
      assert comments[..|comments|] == comments;
    }

    /** `_process_filter_results`: saves each known comment, hides a
        flagged one only when it was newly added, queues it when that hide
        fails and otherwise drops it from the retry queue. */
    method ProcessFilterResults(results: seq<FilterResult>, comments: seq<Comment>, hideOk: set<string>)
      returns (hiddenCount: nat)
      modifies this
      ensures var q := ProcessAll(Progress(old(saved), old(queue), 0), results, comments, hideOk, false);
        saved == q.saved && queue == q.queue && hiddenCount == q.hidden
      ensures dismissed == old(dismissed)
    {
      hiddenCount := 0;
      for i := 0 to |results|
        invariant var q := ProcessAll(Progress(old(saved), old(queue), 0), results[..i], comments, hideOk, false);
          saved == q.saved && queue == q.queue && hiddenCount == q.hidden
        invariant dismissed == old(dismissed)
      {
        assert results[..i + 1][..i] == results[..i];
        var r := results[i];
        var found := Find(comments, r.commentId);
        if found.Some? {
          var c := found.value;
          var id := c.commentId;
          var wasAdded := id !in saved;
          if wasAdded {
            saved := saved[id := SavedComment(c, r.shouldHide, r.reason, r.explanation)];
          }
          var wasQueued := id in QueueIds(queue);
          if HideAsWritten(r.shouldHide, wasAdded, wasQueued) {
            if id in hideOk {
              hiddenCount := hiddenCount + 1;
              queue := Dequeue(queue, id);
            } else {
              queue := Enqueue(queue, c);
            }
          } else {
            queue := Dequeue(queue, id);
          }
        }
      }
      assert results[..|results|] == results;
    }
  }

  /** `scan_and_filter_comments`. `posts` are the monitored post ids and
      `fetched` the comments the time filter kept; `hasClient`, `respond`
      and `decode` stand for the AI filter and `hideOk` for the ids Facebook
      hides. Returns early, with nothing filtered, when there is no post, no
      comment or nothing to filter. */
  method ScanAndFilterComments(store: ScanStore, posts: seq<string>, fetched: seq<Comment>, hasClient: bool,
                               respond: seq<Comment> -> Result<string, string>, decode: string -> Result<Json, string>,
                               hideOk: set<string>) returns (stats: ScanStats)
    modifies store
    ensures store.dismissed == old(store.dismissed)
    ensures stats.postsChecked == |posts| && stats.errors == 0
    ensures posts == [] ==> stats == NoStats && store.saved == old(store.saved) && store.queue == old(store.queue)
    ensures posts != [] ==>
      var found := DropDismissed(fetched, old(store.dismissed));
      var toFilter := Unsaved(found, old(store.saved).Keys) + old(store.queue);
      var results := AiResults(hasClient, toFilter, respond, decode);
      var q := ProcessAll(Progress(old(store.saved), old(store.queue), 0), results, toFilter, hideOk, false);
      && stats.commentsFound == |found|
      && (found == [] || toFilter == [] ==>
            && stats == NoStats.(postsChecked := |posts|, commentsFound := |found|)
            && store.saved == old(store.saved) && store.queue == old(store.queue))
      && (found != [] && toFilter != [] ==>
            && stats.commentsFiltered == |results|
            && stats.commentsHidden == q.hidden
            && store.saved == q.saved && store.queue == q.queue
            && stats.political == Count(results, (r: FilterResult) => IsFlaggedAs(r, "political"))
            && stats.hate == Count(results, (r: FilterResult) => IsFlaggedAs(r, "hate")))
  {
    stats := NoStats.(postsChecked := |posts|);
    if posts == [] {
      return;
    }
    var comments := DropDismissed(fetched, store.dismissed);
    stats := stats.(commentsFound := |comments|);
    if comments == [] {
      return;
    }
    var unsaved, existing := store.SplitNewComments(comments);
    var toFilter := unsaved + store.queue;
    if toFilter == [] {
      return;
    }
    var results := FilterCommentsBatch(hasClient, toFilter, ScanBatchSize, respond, decode);
    stats := stats.(commentsFiltered := |results|);
    var hidden := store.ProcessFilterResults(results, toFilter, hideOk);
    var political, hate := CountReasons(results);
    stats := stats.(commentsHidden := hidden, political := political, hate := hate);
  }

  /** The counting loop over the results: only flagged results count. */
  method CountReasons(results: seq<FilterResult>) returns (political: nat, hate: nat)
    ensures political == Count(results, (r: FilterResult) => IsFlaggedAs(r, "political"))
    ensures hate == Count(results, (r: FilterResult) => IsFlaggedAs(r, "hate"))
    ensures political + hate <= Count(results, (r: FilterResult) => Truthy(r.shouldHide))
  {
    political, hate := 0, 0;
    for i := 0 to |results|
      invariant political == Count(results[..i], (r: FilterResult) => IsFlaggedAs(r, "political"))
      invariant hate == Count(results[..i], (r: FilterResult) => IsFlaggedAs(r, "hate"))
      invariant political + hate <= Count(results[..i], (r: FilterResult) => Truthy(r.shouldHide))
    {
      assert results[..i + 1][..i] == results[..i];
      var r := results[i];
      if Truthy(r.shouldHide) {
        if r.reason == JStr("political") {
          political := political + 1;
        } else if r.reason == JStr("hate") {
          hate := hate + 1;
        }
      }
    }
    assert results[..|results|] == results;
  }
}
