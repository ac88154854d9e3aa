/** The external scheduler (the social network's list of scheduled posts), as
    the web routes see it through its client: a listing of posts, each with a
    reference, a message and a time, and update/delete calls that can fail.
    The client itself is not part of this model; a failing call is a
    reference the remote side refuses (or one it does not know). */
module ExternalScheduler {
  import opened Wrappers
  import opened Collections

  datatype ExtPost = ExtPost(ref: string, message: string, time: int)

  predicate UniqueRefs(posts: seq<ExtPost>) {
    forall i, j :: 0 <= i < j < |posts| ==> posts[i].ref != posts[j].ref
  }

  function RefOf(p: ExtPost): string { p.ref }

  lemma {:induction false} UniqueRefsDistinct(posts: seq<ExtPost>)
    ensures UniqueRefs(posts) <==> DistinctBy(posts, RefOf)
  {
  }

  function Refs(posts: seq<ExtPost>): set<string> {
    set i | 0 <= i < |posts| :: posts[i].ref
  }

  /** The listing with the post `ref` given a new message and, when `time`
      is given, a new time. */
  function Updated(posts: seq<ExtPost>, ref: string, message: string, time: Option<int>): (r: seq<ExtPost>)
    ensures |r| == |posts|
    ensures forall i :: 0 <= i < |posts| && posts[i].ref != ref ==> r[i] == posts[i]
    ensures forall i :: 0 <= i < |posts| && posts[i].ref == ref ==>
      r[i] == ExtPost(ref, message, time.GetOr(posts[i].time))
  {
    if posts == [] then []
    else
      var p := posts[0];
      [if p.ref == ref then ExtPost(ref, message, time.GetOr(p.time)) else p]
      + Updated(posts[1..], ref, message, time)
  }

  /** The listing without the post `ref`. */
  function Removed(posts: seq<ExtPost>, ref: string): (r: seq<ExtPost>)
    ensures forall p :: p in r <==> p in posts && p.ref != ref
  {
    FilterMembers(posts, (p: ExtPost) => p.ref != ref);
    Filter(posts, (p: ExtPost) => p.ref != ref)
  }

  /** The listing in scheduled-time order; equal times keep listing order. */
  function ByTime(posts: seq<ExtPost>): (r: seq<ExtPost>)
    ensures multiset(r) == multiset(posts) && |r| == |posts|
    ensures SortedBy(r, TimeLe)
  {
    SortPermutes(posts, TimeLe);
    SortSorted(posts, TimeLe);
    SortBy(posts, TimeLe)
  }

  predicate TimeLe(a: ExtPost, b: ExtPost) {
    a.time <= b.time
  }

  /** Sorting by time neither loses nor duplicates a reference. */
  lemma {:induction false} ByTimeKeepsUnique(posts: seq<ExtPost>)
    requires UniqueRefs(posts)
    ensures UniqueRefs(ByTime(posts))
  {
    UniqueRefsDistinct(posts);
    SortKeepsDistinct(posts, TimeLe, RefOf);
    UniqueRefsDistinct(ByTime(posts));
  }

  lemma {:induction false} UpdatedKeepsRefs(posts: seq<ExtPost>, ref: string, message: string, time: Option<int>)
    ensures Refs(Updated(posts, ref, message, time)) == Refs(posts)
    ensures UniqueRefs(posts) ==> UniqueRefs(Updated(posts, ref, message, time))
  {
    var r := Updated(posts, ref, message, time);
    forall x | x in Refs(posts) ensures x in Refs(r) {
      var i :| 0 <= i < |posts| && posts[i].ref == x;
      assert r[i].ref == x;
    }
    forall x | x in Refs(r) ensures x in Refs(posts) {
      var i :| 0 <= i < |r| && r[i].ref == x;
      assert posts[i].ref == x;
    }
  }

  class Schedule {
    var posts: seq<ExtPost>
    /** References whose update or delete the remote side rejects. */
    var refused: set<string>

    ghost predicate Valid()
      reads this
    {
      UniqueRefs(posts)
    }

    constructor (listing: seq<ExtPost>, rejects: set<string>)
      requires UniqueRefs(listing)
      ensures Valid() && posts == listing && refused == rejects
    {
      posts := listing;
      refused := rejects;
    }

    /** `get_scheduled_posts`: the current listing. */
    function Listing(): seq<ExtPost>
      reads this
    {
      posts
    }

    predicate Accepts(ref: string)
      reads this
    {
      ref in Refs(posts) && ref !in refused
    }

    /** `update_scheduled_post(ref, message[, time])`. */
    method UpdatePost(ref: string, message: string, time: Option<int>) returns (ok: bool)
      requires Valid()
      modifies this`posts
      ensures Valid()
      ensures ok == old(Accepts(ref))
      ensures posts == if ok then Updated(old(posts), ref, message, time) else old(posts)
    {
      ok := Accepts(ref);
      if ok {
        UpdatedKeepsRefs(posts, ref, message, time);
        posts := Updated(posts, ref, message, time);
      }
    }

    /** `delete_scheduled_post(ref)`. */
    method DeletePost(ref: string) returns (ok: bool)
      requires Valid()
      modifies this`posts
      ensures Valid()
      ensures ok == old(Accepts(ref))
      ensures posts == if ok then Removed(old(posts), ref) else old(posts)
    {
      ok := Accepts(ref);
      if ok {
        posts := Removed(posts, ref);
        RemovedKeepsUnique(old(posts), ref);
      }
    }
  }

  lemma {:induction false} RemovedKeepsUnique(posts: seq<ExtPost>, ref: string)
    requires UniqueRefs(posts)
    ensures UniqueRefs(Removed(posts, ref))
  {
    FilterKeepsUnique(posts, (p: ExtPost) => p.ref != ref);
  }

  lemma {:induction false} FilterKeepsUnique(posts: seq<ExtPost>, keep: ExtPost -> bool)
    requires UniqueRefs(posts)
    ensures UniqueRefs(Filter(posts, keep))
  {
    if posts != [] {
      var init := posts[..|posts| - 1];
      FilterKeepsUnique(init, keep);
      FilterMembers(init, keep);
      var last := posts[|posts| - 1];
      forall p | p in Filter(init, keep) ensures p.ref != last.ref {
        var k :| 0 <= k < |init| && init[k] == p;
      }
    }
  }
}
