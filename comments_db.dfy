/** The `hidden_comments` table of the comment filter: one row per Facebook
    comment id (the column is UNIQUE), moving from `hidden` to `unhidden` or
    `deleted`. Rows are kept in insertion (rowid) order; an upsert removes
    the old row and appends the new one, as SQLite's INSERT OR REPLACE does. */
module CommentsDb {
  import opened Wrappers
  import opened Collections

  datatype CommentStatus = Hidden | Unhidden | Deleted

  /** The parts of an analysis the table stores. */
  datatype AiResult = AiResult(reason: Option<string>, category: Option<string>)

  datatype CommentRow = CommentRow(
    commentId: string,
    postId: string,
    postMessage: string,
    commenterName: string,
    commenterId: string,
    commentText: string,
    hiddenAt: string,
    ai: AiResult,
    status: CommentStatus,
    unhiddenAt: Option<string>,
    deletedAt: Option<string>,
    createdTime: string)

  /** What `get_all_hidden_comments` lists for one post. */
  datatype PostGroup = PostGroup(postId: string, postMessage: string, comments: seq<CommentRow>)

  /** `get_statistics`: the three status counts and, over hidden rows only,
      a count per category (a missing category is its own key). */
  datatype CommentStats = CommentStats(hidden: nat, unhidden: nat, deleted: nat, byCategory: map<Option<string>, nat>)

  predicate UniqueCommentIds(rows: seq<CommentRow>) {
    forall i, j :: 0 <= i < j < |rows| ==> rows[i].commentId != rows[j].commentId
  }

  /** The row for `id`, if any. */
  function Lookup(rows: seq<CommentRow>, id: string): (r: Option<CommentRow>)
    ensures r.Some? ==> r.value in rows && r.value.commentId == id
    ensures r.None? ==> forall row :: row in rows ==> row.commentId != id
  {
    if rows == [] then None
    else if rows[|rows| - 1].commentId == id then Some(rows[|rows| - 1])
    else Lookup(rows[..|rows| - 1], id)
  }

  /** With unique ids, every row is the one `Lookup` finds for its id. */
  lemma {:induction false} LookupFinds(rows: seq<CommentRow>, row: CommentRow)
    requires UniqueCommentIds(rows) && row in rows
    ensures Lookup(rows, row.commentId) == Some(row)
  {
    var init := rows[..|rows| - 1];
    if rows[|rows| - 1] != row {
      assert row in init by {
        var i :| 0 <= i < |rows| && rows[i] == row;
        assert i < |rows| - 1;
        assert init[i] == row;
      }
      LookupFinds(init, row);
    }
  }

  /** The rows with status `hidden`. */
  function HiddenRows(rows: seq<CommentRow>): seq<CommentRow>
  {
    Filter(rows, (r: CommentRow) => r.status == Hidden)
  }

  /** `ORDER BY post_id, hidden_at DESC`. */
  predicate PostThenNewest(a: CommentRow, b: CommentRow)
  {
    if a.postId == b.postId then TextLe(b.hiddenAt, a.hiddenAt) else TextLe(a.postId, b.postId)
  }

  function Keyed(rows: seq<CommentRow>): (items: seq<(string, CommentRow)>)
    ensures |items| == |rows|
    ensures forall i :: 0 <= i < |rows| ==> items[i] == (rows[i].postId, rows[i])
  {
    seq(|rows|, i requires 0 <= i < |rows| => (rows[i].postId, rows[i]))
  }

  function Without(rows: seq<CommentRow>, id: string): seq<CommentRow>
  {
    Filter(rows, (r: CommentRow) => r.commentId != id)
  }

  /** The row an `unhide_comment` or `delete_comment` leaves for a matching
      comment id. */
  function Marked(r: CommentRow, id: string, s: CommentStatus, now: string): CommentRow
  {
    if r.commentId != id then r
    else if s == Unhidden then r.(status := Unhidden, unhiddenAt := Some(now))
    else r.(status := s, deletedAt := Some(now))
  }

  function MarkAll(rows: seq<CommentRow>, id: string, s: CommentStatus, now: string): (out: seq<CommentRow>)
    ensures |out| == |rows|
  {
    seq(|rows|, i requires 0 <= i < |rows| => Marked(rows[i], id, s, now))
  }

  /** The upsert replaces whatever row `id` had and changes no other id's
      row; the new row is hidden. */
  lemma {:induction false} UpsertLookup(rows: seq<CommentRow>, row: CommentRow, other: string)
    ensures UniqueCommentIds(rows) ==> UniqueCommentIds(Without(rows, row.commentId) + [row])
    ensures Lookup(Without(rows, row.commentId) + [row], row.commentId) == Some(row)
    ensures other != row.commentId ==> Lookup(Without(rows, row.commentId) + [row], other) == Lookup(rows, other)
  {
    var rest := Without(rows, row.commentId);
    var keep := (r: CommentRow) => r.commentId != row.commentId;
    FilterMembers(rows, keep);
    if UniqueCommentIds(rows) {
      FilterUnique(rows, row.commentId);
      var all := rest + [row];
      forall i, j | 0 <= i < j < |all| ensures all[i].commentId != all[j].commentId {
        if j == |rest| {
          assert all[i] in rest;
        } else {
          assert all[i] == rest[i] && all[j] == rest[j];
        }
      }
    }
    assert (rest + [row])[..|rest + [row]| - 1] == rest;
    if other != row.commentId {
      WithoutLookup(rows, row.commentId, other);
    }
  }

  lemma {:induction false} FilterUnique(rows: seq<CommentRow>, id: string)
    requires UniqueCommentIds(rows)
    ensures UniqueCommentIds(Without(rows, id))
  {
    if rows != [] {
      var init := rows[..|rows| - 1];
      assert UniqueCommentIds(init) by {
        forall i, j | 0 <= i < j < |init| ensures init[i].commentId != init[j].commentId {
          assert init[i] == rows[i] && init[j] == rows[j];
        }
      }
      FilterUnique(init, id);
      var last := rows[|rows| - 1];
      var keep := (r: CommentRow) => r.commentId != id;
      FilterMembers(init, keep);
      forall r | r in Without(init, id) ensures r.commentId != last.commentId {
        var i :| 0 <= i < |init| && init[i] == r;
        assert rows[i] == r;
      }
    }
  }

  lemma {:induction false} WithoutLookup(rows: seq<CommentRow>, id: string, other: string)
    requires other != id
    ensures Lookup(Without(rows, id), other) == Lookup(rows, other)
  {
    if rows != [] {
      var init := rows[..|rows| - 1];
      WithoutLookup(init, id, other);
      var last := rows[|rows| - 1];
      if last.commentId != id {
        assert Without(rows, id) == Without(init, id) + [last];
        assert (Without(init, id) + [last])[..|Without(init, id)|] == Without(init, id);
      } else {
        assert Without(rows, id) == Without(init, id);
      }
    }
  }

  /** Marking changes the status of `id`'s row and of no other row. */
  lemma {:induction false} MarkAllLookup(rows: seq<CommentRow>, id: string, s: CommentStatus, now: string, other: string)
    ensures Lookup(MarkAll(rows, id, s, now), id) ==
      (if Lookup(rows, id).Some? then Some(Marked(Lookup(rows, id).value, id, s, now)) else None)
    ensures other != id ==> Lookup(MarkAll(rows, id, s, now), other) == Lookup(rows, other)
  {
    if rows != [] {
      var init := rows[..|rows| - 1];
      assert MarkAll(rows, id, s, now)[..|rows| - 1] == MarkAll(init, id, s, now);
      MarkAllLookup(init, id, s, now, other);
    }
  }

  lemma {:induction false} MarkAllUnique(rows: seq<CommentRow>, id: string, s: CommentStatus, now: string)
    requires UniqueCommentIds(rows)
    ensures UniqueCommentIds(MarkAll(rows, id, s, now))
  {
  }

  /** The hidden-status test `is_comment_already_hidden` performs. */
  predicate IsHiddenIn(rows: seq<CommentRow>, id: string)
  {
    Lookup(rows, id).Some? && Lookup(rows, id).value.status == Hidden
  }

  class CommentsDatabase {
    var rows: seq<CommentRow>

    ghost predicate Valid()
      reads this
    {
      UniqueCommentIds(rows)
    }

    /** Opens the table over the rows already stored (CREATE TABLE IF NOT
        EXISTS keeps them). */
    constructor Open(stored: seq<CommentRow>)
      requires UniqueCommentIds(stored)
      ensures Valid() && rows == stored
    {
      rows := stored;
    }

    /** `add_hidden_comment`: INSERT OR REPLACE by comment id, status
        `hidden`. */
    method AddHiddenComment(commentId: string, postId: string, postMessage: string, commenterName: string,
                            commenterId: string, commentText: string, ai: AiResult, createdTime: string, now: string)
      returns (ok: bool)
      requires Valid()
      modifies this
      ensures Valid() && ok
      ensures rows == Without(old(rows), commentId)
        + [CommentRow(commentId, postId, postMessage, commenterName, commenterId, commentText, now, ai, Hidden, None, None, createdTime)]
      ensures IsHiddenIn(rows, commentId)
      ensures forall other :: other != commentId ==> Lookup(rows, other) == Lookup(old(rows), other)
    {
      var row := CommentRow(commentId, postId, postMessage, commenterName, commenterId, commentText, now, ai, Hidden, None, None, createdTime);
      UpsertLookup(rows, row, commentId);
      forall other ensures other != commentId ==> Lookup(Without(rows, commentId) + [row], other) == Lookup(rows, other)
      {
        UpsertLookup(rows, row, other);
      }
      rows := Without(rows, commentId) + [row];
      ok := true;
    }

    /** `unhide_comment`: true iff a row matched. */
    method UnhideComment(commentId: string, now: string) returns (matched: bool)
      requires Valid()
      modifies this
      ensures Valid()
      ensures matched <==> Lookup(old(rows), commentId).Some?
      ensures rows == MarkAll(old(rows), commentId, Unhidden, now)
      ensures !IsHiddenIn(rows, commentId)
      ensures forall other :: other != commentId ==> Lookup(rows, other) == Lookup(old(rows), other)
    {
      matched := SetStatus(commentId, Unhidden, now);
    }

    /** `delete_comment`: true iff a row matched. */
    method DeleteComment(commentId: string, now: string) returns (matched: bool)
      requires Valid()
      modifies this
      ensures Valid()
      ensures matched <==> Lookup(old(rows), commentId).Some?
      ensures rows == MarkAll(old(rows), commentId, Deleted, now)
      ensures !IsHiddenIn(rows, commentId)
      ensures forall other :: other != commentId ==> Lookup(rows, other) == Lookup(old(rows), other)
    {
      matched := SetStatus(commentId, Deleted, now);
    }

    /** The UPDATE both of them run; the row count is whether the id was
        found. */
    method SetStatus(commentId: string, s: CommentStatus, now: string) returns (matched: bool)
      requires Valid() && s != Hidden
      modifies this
      ensures Valid()
      ensures matched <==> Lookup(old(rows), commentId).Some?
      ensures rows == MarkAll(old(rows), commentId, s, now)
      ensures !IsHiddenIn(rows, commentId)
      ensures forall other :: other != commentId ==> Lookup(rows, other) == Lookup(old(rows), other)
    {
      forall other ensures
        && Lookup(MarkAll(rows, commentId, s, now), commentId) ==
             (if Lookup(rows, commentId).Some? then Some(Marked(Lookup(rows, commentId).value, commentId, s, now)) else None)
        && (other != commentId ==> Lookup(MarkAll(rows, commentId, s, now), other) == Lookup(rows, other))
      {
        MarkAllLookup(rows, commentId, s, now, other);
      }
      matched := Lookup(rows, commentId).Some?;
      MarkAllUnique(rows, commentId, s, now);
      rows := MarkAll(rows, commentId, s, now);
    }

    /** `is_comment_already_hidden`: a row exists and its status is
        `hidden`. */
    function IsCommentAlreadyHidden(commentId: string): (h: bool)
      reads this
      requires Valid()
      ensures h <==> exists row :: row in rows && row.commentId == commentId && row.status == Hidden
    {
      if Lookup(rows, commentId).Some? then
        assert forall row :: row in rows && row.commentId == commentId ==> Lookup(rows, commentId) == Some(row) by {
          forall row | row in rows && row.commentId == commentId ensures Lookup(rows, commentId) == Some(row) {
            LookupFinds(rows, row);
          }
        }
        Lookup(rows, commentId).value.status == Hidden
      else false
    }

    /** `get_all_hidden_comments`: the hidden rows in `post_id, hidden_at
        DESC` order, grouped by post in first-seen order; a group's message
        is its first row's. */
    method GetAllHiddenComments() returns (groups: seq<PostGroup>)
      ensures forall g :: g in groups ==> g.comments != []
      ensures forall i, j :: 0 <= i < j < |groups| ==> groups[i].postId != groups[j].postId
      ensures forall r :: r in rows && r.status == Hidden ==> exists g :: g in groups && g.postId == r.postId
      ensures forall g, r :: g in groups ==> (r in g.comments <==> r in rows && r.status == Hidden && r.postId == g.postId)
      ensures forall i, j :: 0 <= i < j < |groups| ==> TextLe(groups[i].postId, groups[j].postId)
      ensures forall g, i, j :: g in groups && 0 <= i < j < |g.comments| ==> TextLe(g.comments[j].hiddenAt, g.comments[i].hiddenAt)
      ensures forall g :: g in groups ==> g.postMessage == g.comments[0].postMessage
    {
      var selected := SortBy(HiddenRows(rows), PostThenNewest);
      var items := Keyed(selected);
      var pairs := GroupByKey(items);
      GroupingFacts(rows, selected, items, pairs);
      groups := GroupsOf(pairs);
      GroupsHoldHidden(rows, pairs, groups);
      GroupingOrder(rows, selected, items, pairs);
      GroupsOrdered(pairs, groups);
    }

    /** `get_statistics`. */
    function GetStatistics(): (stats: CommentStats)
      reads this
      ensures stats.hidden + stats.unhidden + stats.deleted == |rows|
      ensures forall c :: c in stats.byCategory <==> exists r :: r in rows && r.status == Hidden && r.ai.category == c
      ensures forall c :: c in stats.byCategory ==> 1 <= stats.byCategory[c] <= stats.hidden
    {
      var byCategory := map c | c in HiddenCategories(rows) :: Count(rows, (r: CommentRow) => r.status == Hidden && r.ai.category == c);
      var stats := CommentStats(Count(rows, (r: CommentRow) => r.status == Hidden),
                                Count(rows, (r: CommentRow) => r.status == Unhidden),
                                Count(rows, (r: CommentRow) => r.status == Deleted),
                                byCategory);
      StatusesPartition(rows);
      assert forall c :: c in stats.byCategory ==> 1 <= stats.byCategory[c] <= stats.hidden by {
        forall c | c in byCategory ensures 1 <= byCategory[c] <= stats.hidden {
          var r :| r in rows && r.status == Hidden && r.ai.category == c;
          CategoryCountBounds(rows, c, r);
        }
      }
      stats
    }
  }

  /** The loop that turns each (post id, rows) pair into a group carrying
      its first row's message. */
  method GroupsOf(pairs: seq<(string, seq<CommentRow>)>) returns (groups: seq<PostGroup>)
    requires forall j :: 0 <= j < |pairs| ==> pairs[j].1 != []
    ensures |groups| == |pairs|
    ensures forall j :: 0 <= j < |pairs| ==> groups[j] == PostGroup(pairs[j].0, pairs[j].1[0].postMessage, pairs[j].1)
  {
    groups := [];
    for k := 0 to |pairs|
      invariant |groups| == k
      invariant forall j :: 0 <= j < k ==> groups[j] == PostGroup(pairs[j].0, pairs[j].1[0].postMessage, pairs[j].1)
    {
      groups := groups + [PostGroup(pairs[k].0, pairs[k].1[0].postMessage, pairs[k].1)];
    }
  }

  /** The groups built from the pairs hold exactly the hidden rows, one
      group per post. */
  lemma GroupsHoldHidden(rows: seq<CommentRow>, pairs: seq<(string, seq<CommentRow>)>, groups: seq<PostGroup>)
    requires forall j :: 0 <= j < |pairs| ==> pairs[j].1 != []
    requires forall i, j :: 0 <= i < j < |pairs| ==> pairs[i].0 != pairs[j].0
    requires forall r :: r in rows && r.status == Hidden ==> exists j :: 0 <= j < |pairs| && pairs[j].0 == r.postId
    requires forall j, r :: 0 <= j < |pairs| ==> (r in pairs[j].1 <==> r in rows && r.status == Hidden && r.postId == pairs[j].0)
    requires |groups| == |pairs|
    requires forall j :: 0 <= j < |pairs| ==> groups[j] == PostGroup(pairs[j].0, pairs[j].1[0].postMessage, pairs[j].1)
    ensures forall g :: g in groups ==> g.comments != []
    ensures forall i, j :: 0 <= i < j < |groups| ==> groups[i].postId != groups[j].postId
    ensures forall r :: r in rows && r.status == Hidden ==> exists g :: g in groups && g.postId == r.postId
    ensures forall g, r :: g in groups ==> (r in g.comments <==> r in rows && r.status == Hidden && r.postId == g.postId)
  {
    forall r | r in rows && r.status == Hidden ensures exists g :: g in groups && g.postId == r.postId {
      var j :| 0 <= j < |pairs| && pairs[j].0 == r.postId;
      assert groups[j].postId == r.postId;
    }
  }

  /** The groups keep the pairs' order, and each carries its first row's
      message. */
  lemma GroupsOrdered(pairs: seq<(string, seq<CommentRow>)>, groups: seq<PostGroup>)
    requires forall j :: 0 <= j < |pairs| ==> pairs[j].1 != []
    requires forall i, j :: 0 <= i < j < |pairs| ==> TextLe(pairs[i].0, pairs[j].0)
    requires forall j, a, b :: 0 <= j < |pairs| && 0 <= a < b < |pairs[j].1| ==> TextLe(pairs[j].1[b].hiddenAt, pairs[j].1[a].hiddenAt)
    requires |groups| == |pairs|
    requires forall j :: 0 <= j < |pairs| ==> groups[j] == PostGroup(pairs[j].0, pairs[j].1[0].postMessage, pairs[j].1)
    ensures forall i, j :: 0 <= i < j < |groups| ==> TextLe(groups[i].postId, groups[j].postId)
    ensures forall g, i, j :: g in groups && 0 <= i < j < |g.comments| ==> TextLe(g.comments[j].hiddenAt, g.comments[i].hiddenAt)
    ensures forall g :: g in groups ==> g.postMessage == g.comments[0].postMessage
  {
  }

  /** What the grouping loop produces from the selected rows: non-empty
      groups under distinct post ids, each holding exactly its post's hidden
      rows, and a group for every post with a hidden row. */
  lemma {:induction false} GroupingFacts(rows: seq<CommentRow>, selected: seq<CommentRow>,
                                         items: seq<(string, CommentRow)>, pairs: seq<(string, seq<CommentRow>)>)
    requires selected == SortBy(HiddenRows(rows), PostThenNewest) && items == Keyed(selected)
    requires |pairs| == |FirstSeenKeys(items)|
    requires forall j :: 0 <= j < |pairs| ==> pairs[j].0 == FirstSeenKeys(items)[j]
    requires forall j :: 0 <= j < |pairs| ==> pairs[j].1 == ValuesOf(items, pairs[j].0)
    ensures forall j :: 0 <= j < |pairs| ==> pairs[j].1 != []
    ensures forall i, j :: 0 <= i < j < |pairs| ==> pairs[i].0 != pairs[j].0
    ensures forall r :: r in rows && r.status == Hidden ==> exists j :: 0 <= j < |pairs| && pairs[j].0 == r.postId
    ensures forall j, r :: 0 <= j < |pairs| ==> (r in pairs[j].1 <==> r in rows && r.status == Hidden && r.postId == pairs[j].0)
  {
    HiddenSelection(rows, selected);
    FirstSeenKeysMembers(items);
    FirstSeenKeysDistinct(items);
    forall j | 0 <= j < |pairs| ensures pairs[j].1 != [] {
      assert pairs[j].0 in FirstSeenKeys(items);
      ValuesOfEmpty(items, pairs[j].0);
    }
    forall r | r in rows && r.status == Hidden ensures exists j :: 0 <= j < |pairs| && pairs[j].0 == r.postId {
      var i :| 0 <= i < |selected| && selected[i] == r;
      assert items[i].0 == r.postId;
      assert r.postId in FirstSeenKeys(items);
      var j :| 0 <= j < |FirstSeenKeys(items)| && FirstSeenKeys(items)[j] == r.postId;
      assert pairs[j].0 == r.postId;
    }
    forall j, r | 0 <= j < |pairs| ensures r in pairs[j].1 <==> r in rows && r.status == Hidden && r.postId == pairs[j].0 {
      ValuesOfMember(items, pairs[j].0, r);
      if (pairs[j].0, r) in items {
        var i :| 0 <= i < |items| && items[i] == (pairs[j].0, r);
        assert selected[i] == r;
      }
      if r in selected {
        var i :| 0 <= i < |selected| && selected[i] == r;
        assert items[i] == (r.postId, r);
      }
    }
  }

  /** The query's rows are exactly the hidden rows, re-ordered. */
  lemma {:induction false} HiddenSelection(rows: seq<CommentRow>, selected: seq<CommentRow>)
    requires selected == SortBy(HiddenRows(rows), PostThenNewest)
    ensures forall r :: r in selected <==> r in rows && r.status == Hidden
  {
    SortPermutes(HiddenRows(rows), PostThenNewest);
    FilterMembers(rows, (r: CommentRow) => r.status == Hidden);
    forall r ensures r in selected <==> r in HiddenRows(rows) {
      assert r in selected <==> r in multiset(selected);
    }
  }

  /** `ORDER BY post_id, hidden_at DESC` is a total preorder, so sorting
      by it yields an ordered result. */
  lemma {:induction false} PostThenNewestPreorder()
    ensures TotalPreorder(PostThenNewest)
  {
    forall a: CommentRow, b: CommentRow ensures PostThenNewest(a, b) || PostThenNewest(b, a) {
      if a.postId == b.postId {
        TextLeTotal(b.hiddenAt, a.hiddenAt);
      } else {
        TextLeTotal(a.postId, b.postId);
      }
    }
    forall a: CommentRow, b: CommentRow, c: CommentRow | PostThenNewest(a, b) && PostThenNewest(b, c)
      ensures PostThenNewest(a, c)
    {
      if a.postId == b.postId && b.postId == c.postId {
        TextLeTransitive(c.hiddenAt, b.hiddenAt, a.hiddenAt);
      } else if a.postId != b.postId && b.postId != c.postId {
        TextLeTransitive(a.postId, b.postId, c.postId);
        if a.postId == c.postId {
          TextLeAntisymmetric(a.postId, b.postId);
          assert false;
        }
      }
    }
  }

  /** The query's rows come out in `post_id, hidden_at DESC` order. */
  lemma HiddenOrdered(rows: seq<CommentRow>, selected: seq<CommentRow>, items: seq<(string, CommentRow)>)
    requires selected == SortBy(HiddenRows(rows), PostThenNewest) && items == Keyed(selected)
    ensures forall i, j :: 0 <= i < j < |items| ==> PostThenNewest(items[i].1, items[j].1)
    ensures forall i, j :: 0 <= i < j < |items| ==> TextLe(items[i].0, items[j].0)
  {
    PostThenNewestPreorder();
    SortSorted(HiddenRows(rows), PostThenNewest);
    forall i, j | 0 <= i < j < |items| ensures TextLe(items[i].0, items[j].0) {
      assert PostThenNewest(selected[i], selected[j]);
      TextLeTotal(selected[i].postId, selected[j].postId);
    }
  }

  /** The order the grouping keeps: post ids ascending across groups, and
      inside a group the most recently hidden row first. */
  lemma {:induction false} GroupingOrder(rows: seq<CommentRow>, selected: seq<CommentRow>,
                                         items: seq<(string, CommentRow)>, pairs: seq<(string, seq<CommentRow>)>)
    requires selected == SortBy(HiddenRows(rows), PostThenNewest) && items == Keyed(selected)
    requires |pairs| == |FirstSeenKeys(items)|
    requires forall j :: 0 <= j < |pairs| ==> pairs[j].0 == FirstSeenKeys(items)[j]
    requires forall j :: 0 <= j < |pairs| ==> pairs[j].1 == ValuesOf(items, pairs[j].0)
    ensures forall i, j :: 0 <= i < j < |pairs| ==> TextLe(pairs[i].0, pairs[j].0)
    ensures forall j, a, b :: 0 <= j < |pairs| && 0 <= a < b < |pairs[j].1| ==> TextLe(pairs[j].1[b].hiddenAt, pairs[j].1[a].hiddenAt)
  {
    HiddenOrdered(rows, selected, items);
    FirstSeenKeysSorted(items, TextLe);
    forall j | 0 <= j < |pairs|
      ensures forall a, b :: 0 <= a < b < |pairs[j].1| ==> TextLe(pairs[j].1[b].hiddenAt, pairs[j].1[a].hiddenAt)
    {
      NewestFirst(items, pairs[j].0);
    }
  }

  /** Inside one post's group, rows run from the most recently hidden. */
  lemma {:induction false} NewestFirst(items: seq<(string, CommentRow)>, p: string)
    requires forall i, j :: 0 <= i < j < |items| ==> PostThenNewest(items[i].1, items[j].1)
    requires forall i :: 0 <= i < |items| ==> items[i].0 == items[i].1.postId
    ensures forall a, b :: 0 <= a < b < |ValuesOf(items, p)| ==> TextLe(ValuesOf(items, p)[b].hiddenAt, ValuesOf(items, p)[a].hiddenAt)
  {
    var group := ValuesOf(items, p);
    ValuesOfSorted(items, p, PostThenNewest);
    forall a, b | 0 <= a < b < |group| ensures TextLe(group[b].hiddenAt, group[a].hiddenAt) {
      ValuesOfMember(items, p, group[a]);
      ValuesOfMember(items, p, group[b]);
      assert group[a] in group && group[b] in group;
      var m :| 0 <= m < |items| && items[m] == (p, group[a]);
      var n :| 0 <= n < |items| && items[n] == (p, group[b]);
      assert PostThenNewest(group[a], group[b]);
    }
  }

  /** The categories of the hidden rows. */
  function HiddenCategories(rows: seq<CommentRow>): set<Option<string>>
  {
    set r | r in rows && r.status == Hidden :: r.ai.category
  }

  /** Every row has exactly one of the three statuses. */
  lemma {:induction false} StatusesPartition(rows: seq<CommentRow>)
    ensures Count(rows, (r: CommentRow) => r.status == Hidden) + Count(rows, (r: CommentRow) => r.status == Unhidden)
            + Count(rows, (r: CommentRow) => r.status == Deleted) == |rows|
  {
    if rows != [] {
      StatusesPartition(rows[..|rows| - 1]);
    }
  }

  lemma {:induction false} CategoryCountBounds(rows: seq<CommentRow>, c: Option<string>, sample: CommentRow)
    requires sample in rows && sample.status == Hidden && sample.ai.category == c
    ensures 1 <= Count(rows, (r: CommentRow) => r.status == Hidden && r.ai.category == c)
    ensures Count(rows, (r: CommentRow) => r.status == Hidden && r.ai.category == c) <= Count(rows, (r: CommentRow) => r.status == Hidden)
  {
    var init := rows[..|rows| - 1];
    CountBelow(init, c);
    if rows[|rows| - 1] != sample {
      assert sample in init by {
        var i :| 0 <= i < |rows| && rows[i] == sample;
        assert init[i] == sample;
      }
      CategoryCountBounds(init, c, sample);
    }
  }

  lemma {:induction false} CountBelow(rows: seq<CommentRow>, c: Option<string>)
    ensures Count(rows, (r: CommentRow) => r.status == Hidden && r.ai.category == c) <= Count(rows, (r: CommentRow) => r.status == Hidden)
  {
    if rows != [] {
      CountBelow(rows[..|rows| - 1], c);
    }
  }
}
