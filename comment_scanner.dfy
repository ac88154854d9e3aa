/** The standalone comment scanner: scans every post's comments, asks the
    classifier about the ones neither hidden on Facebook nor already hidden
    in the database, hides the flagged ones and records each successful hide.
    A flag keeps two scans from overlapping. The Facebook page, the classifier
    and the clock are parameters. */
module CommentScanning {
  import opened Wrappers
  import opened Collections
  import opened CommentsDb

  /** A comment as the page returns it; a missing key is None, and a missing
      `is_hidden` is false. */
  datatype FbComment = FbComment(id: string, isHidden: bool, fromName: Option<string>, fromId: Option<string>,
                                 message: Option<string>, createdTime: Option<string>)

  datatype PostComments = PostComments(postId: string, postMessage: string, comments: seq<FbComment>)

  /** The classifier's verdict on one comment. */
  datatype Analysis = Analysis(shouldHide: bool, reason: Option<string>, category: Option<string>)

  /** What a scan that runs reports. */
  datatype ScanResult =
    | ScanSucceeded(totalComments: nat, newHidden: nat, alreadyHidden: nat, timestamp: int)
    | ScanError(error: string)

  /** The rows hidden so far and the number of comments hidden. */
  datatype Pass = Pass(rows: seq<CommentRow>, hidden: nat)

  /** Where the scan over the posts stands: the rows, the comments seen, the
      hides, and the error that ended it, if one did. */
  datatype ScanState = ScanState(rows: seq<CommentRow>, total: nat, hidden: nat, error: Option<string>)

  /** The comments worth a classifier call: not hidden on Facebook and not
      hidden in the database. */
  function ToCheck(rows: seq<CommentRow>, comments: seq<FbComment>): (r: seq<FbComment>)
    ensures forall c :: c in r <==> c in comments && !c.isHidden && !IsHiddenIn(rows, c.id)
    ensures |r| <= |comments|
  {
    var keep := (c: FbComment) => !c.isHidden && !IsHiddenIn(rows, c.id);
    FilterMembers(comments, keep);
    FilterLength(comments, keep);
    Filter(comments, keep)
  }

  lemma {:induction false} FilterLength<T>(s: seq<T>, keep: T -> bool)
    ensures |Filter(s, keep)| <= |s|
  {
    if s != [] {
      FilterLength(s[..|s| - 1], keep);
    }
  }

  /** A comment is hidden when the classifier flagged it and the page hid it. */
  predicate WillHide(c: FbComment, analyses: map<string, Analysis>, hideOk: set<string>)
  {
    c.id in analyses && analyses[c.id].shouldHide && c.id in hideOk
  }

  /** The row `add_hidden_comment` writes for a hidden comment. */
  function HiddenRow(post: PostComments, c: FbComment, a: Analysis, now: string): CommentRow
  {
    CommentRow(c.id, post.postId, post.postMessage, c.fromName.GetOr("Unknown"), c.fromId.GetOr(""),
               c.message.GetOr(""), now, AiResult(a.reason, a.category), Hidden, None, None, c.createdTime.GetOr(""))
  }

  /** The hide loop of one post, over its comments in order. */
  function HideAll(rows: seq<CommentRow>, post: PostComments, cs: seq<FbComment>, analyses: map<string, Analysis>,
                   hideOk: set<string>, now: string): Pass
  {
    if cs == [] then Pass(rows, 0)
    else
      var p := HideAll(rows, post, cs[..|cs| - 1], analyses, hideOk, now);
      var c := cs[|cs| - 1];
      if WillHide(c, analyses, hideOk) then Pass(Without(p.rows, c.id) + [HiddenRow(post, c, analyses[c.id], now)], p.hidden + 1)
      else p
  }

  /** One post: nothing to check skips the classifier; a classifier error
      ends the scan. */
  function ScanPost(rows: seq<CommentRow>, post: PostComments,
                    analyze: (seq<FbComment>, string) -> Result<map<string, Analysis>, string>,
                    hideOk: set<string>, now: string): Result<Pass, string>
  {
    var toCheck := ToCheck(rows, post.comments);
    if toCheck == [] then Ok(Pass(rows, 0))
    else match analyze(toCheck, post.postMessage)
      case Err(e) => Err(e)
      case Ok(analyses) => Ok(HideAll(rows, post, toCheck, analyses, hideOk, now))
  }

  /** The scan over all posts, in order, stopping at the first error. */
  function ScanPosts(rows: seq<CommentRow>, posts: seq<PostComments>,
                     analyze: (seq<FbComment>, string) -> Result<map<string, Analysis>, string>,
                     hideOk: set<string>, now: string): ScanState
  {
    if posts == [] then ScanState(rows, 0, 0, None)
    else
      var s := ScanPosts(rows, posts[..|posts| - 1], analyze, hideOk, now);
      var post := posts[|posts| - 1];
      if s.error.Some? then s
      else match ScanPost(s.rows, post, analyze, hideOk, now)
        case Err(e) => s.(total := s.total + |post.comments|, error := Some(e))
        case Ok(p) => ScanState(p.rows, s.total + |post.comments|, s.hidden + p.hidden, None)
  }

  function CommentTotal(posts: seq<PostComments>): nat
  {
    if posts == [] then 0 else CommentTotal(posts[..|posts| - 1]) + |posts[|posts| - 1].comments|
  }

  /** The hide count of one post is the number of its comments that were
      flagged and hidden on the page, every one of them is hidden in the
      database afterwards, and no other comment's row changes. */
  lemma {:induction false} HideAllEffect(rows: seq<CommentRow>, post: PostComments, cs: seq<FbComment>,
                                         analyses: map<string, Analysis>, hideOk: set<string>, now: string)
    ensures HideAll(rows, post, cs, analyses, hideOk, now).hidden
            == Count(cs, (c: FbComment) => WillHide(c, analyses, hideOk))
    ensures forall c :: c in cs && WillHide(c, analyses, hideOk) ==> IsHiddenIn(HideAll(rows, post, cs, analyses, hideOk, now).rows, c.id)
    ensures forall id :: (forall c :: c in cs && WillHide(c, analyses, hideOk) ==> c.id != id) ==>
              Lookup(HideAll(rows, post, cs, analyses, hideOk, now).rows, id) == Lookup(rows, id)
  {
    if cs != [] {
      var init := cs[..|cs| - 1];
      var c := cs[|cs| - 1];
      HideAllEffect(rows, post, init, analyses, hideOk, now);
      var p := HideAll(rows, post, init, analyses, hideOk, now);
      var after := HideAll(rows, post, cs, analyses, hideOk, now);
      assert forall x :: x in cs <==> x in init || x == c by {
        assert cs == init + [c];
      }
      if WillHide(c, analyses, hideOk) {
        var row := HiddenRow(post, c, analyses[c.id], now);
        forall other {
          UpsertLookup(p.rows, row, other);
        }
      }
    }
  }

  /** The scan's totals: every comment of every post scanned is counted, and
      no more comments are hidden than were seen. */
  lemma {:induction false} ScanTotals(rows: seq<CommentRow>, posts: seq<PostComments>,
                                      analyze: (seq<FbComment>, string) -> Result<map<string, Analysis>, string>,
                                      hideOk: set<string>, now: string)
    ensures ScanPosts(rows, posts, analyze, hideOk, now).error.None? ==>
              ScanPosts(rows, posts, analyze, hideOk, now).total == CommentTotal(posts)
    ensures ScanPosts(rows, posts, analyze, hideOk, now).hidden <= ScanPosts(rows, posts, analyze, hideOk, now).total
  {
    if posts != [] {
      var init := posts[..|posts| - 1];
      var post := posts[|posts| - 1];
      ScanTotals(rows, init, analyze, hideOk, now);
      var s := ScanPosts(rows, init, analyze, hideOk, now);
      if s.error.None? {
        var toCheck := ToCheck(s.rows, post.comments);
        if toCheck != [] && analyze(toCheck, post.postMessage).Ok? {
          var analyses := analyze(toCheck, post.postMessage).value;
          HideAllEffect(s.rows, post, toCheck, analyses, hideOk, now);
          CountAtMost(toCheck, (c: FbComment) => WillHide(c, analyses, hideOk));
        }
      }
    }
  }

  lemma {:induction false} CountAtMost<T>(s: seq<T>, p: T -> bool)
    ensures Count(s, p) <= |s|
  {
    if s != [] {
      CountAtMost(s[..|s| - 1], p);
    }
  }

  /** A comment hidden in the database when its post comes up is never sent
      to the classifier again, so it is not hidden twice. */
  lemma {:induction false} HiddenCommentsSkipped(rows: seq<CommentRow>, post: PostComments,
                                                 analyze: (seq<FbComment>, string) -> Result<map<string, Analysis>, string>,
                                                 hideOk: set<string>, now: string)
    requires forall c :: c in post.comments ==> c.isHidden || IsHiddenIn(rows, c.id)
    ensures ScanPost(rows, post, analyze, hideOk, now) == Ok(Pass(rows, 0))
  {
    FirstIsMember(ToCheck(rows, post.comments));
  }

  class CommentScanner {
    const db: CommentsDatabase
    var isScanning: bool
    var lastScan: Option<int>

    constructor(commentsDb: CommentsDatabase)
      ensures db == commentsDb && !isScanning && lastScan == None
    {
      db := commentsDb;
      isScanning := false;
      lastScan := None;
    }

    /** `scan_and_filter`. `postsData` is what the page returns, or the
        error it raises; `analyze` stands for the classifier, `hideOk` for
        the comments the page hides, `now` for the scan's start and `stamp`
        for the hide time the database records. An overlapping call returns
        None and changes nothing. */
    method ScanAndFilter(postsData: Result<seq<PostComments>, string>,
                         analyze: (seq<FbComment>, string) -> Result<map<string, Analysis>, string>,
                         hideOk: set<string>, now: int, stamp: string) returns (result: Option<ScanResult>)
      requires db.Valid()
      modifies this, db
      ensures db.Valid()
      ensures old(isScanning) ==> result == None && isScanning && lastScan == old(lastScan) && db.rows == old(db.rows)
      ensures !old(isScanning) ==> result.Some? && !isScanning
      ensures !old(isScanning) && postsData.Err? ==>
        result == Some(ScanError(postsData.error)) && db.rows == old(db.rows) && lastScan == old(lastScan)
      ensures !old(isScanning) && postsData.Ok? ==>
        var s := ScanPosts(old(db.rows), postsData.value, analyze, hideOk, stamp);
        && db.rows == s.rows
        && (s.error.Some? ==> result == Some(ScanError(s.error.value)) && lastScan == old(lastScan))
        && (s.error.None? ==> result == Some(ScanSucceeded(s.total, s.hidden, 0, now)) && lastScan == Some(now))
    {
      if isScanning {
        return None;
      }
      isScanning := true;
      if postsData.Err? {
        isScanning := false;
        return Some(ScanError(postsData.error));
      }
      var s := ScanAllPosts(db, postsData.value, analyze, hideOk, stamp);
      isScanning := false;
      if s.error.Some? {
        return Some(ScanError(s.error.value));
      }
      lastScan := Some(now);
      result := Some(ScanSucceeded(s.total, s.hidden, 0, now));
    }
  }

  /** The loop over the posts; stops at the first classifier error. */
  method ScanAllPosts(db: CommentsDatabase, posts: seq<PostComments>,
                      analyze: (seq<FbComment>, string) -> Result<map<string, Analysis>, string>,
                      hideOk: set<string>, stamp: string) returns (s: ScanState)
    requires db.Valid()
    modifies db
    ensures db.Valid()
    ensures s == ScanPosts(old(db.rows), posts, analyze, hideOk, stamp) && db.rows == s.rows
  {
    var total: nat := 0;
    var newHidden: nat := 0;
    ghost var rows0 := db.rows;
    for i := 0 to |posts|
      invariant db.Valid()
      invariant ScanPosts(rows0, posts[..i], analyze, hideOk, stamp) == ScanState(db.rows, total, newHidden, None)
    {
      assert posts[..i + 1][..i] == posts[..i];
      var post := posts[i];
      total := total + |post.comments|;
      var toCheck := ToCheck(db.rows, post.comments);
      if toCheck != [] {
        var analyses := analyze(toCheck, post.postMessage);
        if analyses.Err? {
          ScanStops(rows0, posts, i, analyze, hideOk, stamp);
          return ScanState(db.rows, total, newHidden, Some(analyses.error));
        }
        var hidden := HidePostComments(db, post, toCheck, analyses.value, hideOk, stamp);
        newHidden := newHidden + hidden;
      }
    }
    assert posts[..|posts|] == posts;
    s := ScanState(db.rows, total, newHidden, None);
  }

  /** Once a post's classifier call fails, the later posts change nothing. */
  lemma {:induction false} ScanStops(rows: seq<CommentRow>, posts: seq<PostComments>, i: nat,
                                     analyze: (seq<FbComment>, string) -> Result<map<string, Analysis>, string>,
                                     hideOk: set<string>, now: string)
    requires i < |posts|
    requires ScanPosts(rows, posts[..i + 1], analyze, hideOk, now).error.Some?
    ensures ScanPosts(rows, posts, analyze, hideOk, now) == ScanPosts(rows, posts[..i + 1], analyze, hideOk, now)
    decreases |posts|
  {
    if i + 1 < |posts| {
      var init := posts[..|posts| - 1];
      assert init[..i + 1] == posts[..i + 1];
      ScanStops(rows, init, i, analyze, hideOk, now);
    } else {
      assert posts[..i + 1] == posts;
    }
  }

  /** The hide loop of one post, against the database. */
  method HidePostComments(db: CommentsDatabase, post: PostComments, toCheck: seq<FbComment>,
                          analyses: map<string, Analysis>, hideOk: set<string>, now: string) returns (count: nat)
    requires db.Valid()
    modifies db
    ensures db.Valid()
    ensures HideAll(old(db.rows), post, toCheck, analyses, hideOk, now) == Pass(db.rows, count)
  {
    count := 0;
    ghost var rows0 := db.rows;
    for i := 0 to |toCheck|
      invariant db.Valid()
      invariant HideAll(rows0, post, toCheck[..i], analyses, hideOk, now) == Pass(db.rows, count)
    {
      assert toCheck[..i + 1][..i] == toCheck[..i];
      var c := toCheck[i];
      if c.id in analyses && analyses[c.id].shouldHide {
        if c.id in hideOk {
          var a := analyses[c.id];
          var _ := db.AddHiddenComment(c.id, post.postId, post.postMessage, c.fromName.GetOr("Unknown"),
                                       c.fromId.GetOr(""), c.message.GetOr(""), AiResult(a.reason, a.category),
                                       c.createdTime.GetOr(""), now);
          count := count + 1;
        }
      }
    }
    assert toCheck[..|toCheck|] == toCheck;
  }
}
