/** The AI comment filter's own logic: cutting the comments into batches,
    the per-batch fallback when a batch fails, and turning the model's reply
    text into result records. The API call and the JSON decoder are
    parameters (`respond`, `decode`); what they return is all the model
    sees of them. */
module AiCommentFilter {
  import opened Wrappers
  import opened Collections
  import PostPrefix

  /** A comment as the scanners hand it over. */
  datatype Comment = Comment(commentId: string, postId: string, text: string, createdAt: string)

  /** A decoded JSON value. Objects keep their fields in order; a decoded
      object has distinct keys. Numbers are integers here. */
  datatype Json =
    | JNull
    | JBool(b: bool)
    | JNum(n: int)
    | JStr(s: string)
    | JArr(items: seq<Json>)
    | JObj(fields: seq<(string, Json)>)

  /** One result record. The fields copied from the reply keep whatever JSON
      value the reply had; `needsRetry` is set by the filter itself. */
  datatype FilterResult = FilterResult(commentId: Json, shouldHide: Json, reason: Json, explanation: Json, needsRetry: bool)

  // ---------------------------------------------------------------------
  // Substrings
  // ---------------------------------------------------------------------

  predicate MatchesAt(s: string, pat: string, i: nat)
  {
    i + |pat| <= |s| && s[i..i + |pat|] == pat
  }

  /** The first occurrence of `pat` at or after `i`. */
  function IndexFrom(s: string, pat: string, i: nat): (r: Option<nat>)
    ensures r.Some? ==> i <= r.value && MatchesAt(s, pat, r.value)
    ensures r.Some? ==> forall j :: i <= j < r.value ==> !MatchesAt(s, pat, j)
    ensures r.None? ==> forall j :: i <= j ==> !MatchesAt(s, pat, j)
    decreases |s| - i
  {
    if i + |pat| > |s| then None
    else if s[i..i + |pat|] == pat then Some(i)
    else IndexFrom(s, pat, i + 1)
  }

  function IndexOf(s: string, pat: string): Option<nat>
  {
    IndexFrom(s, pat, 0)
  }

  /** Python's `pat in s`. */
  predicate Contains(s: string, pat: string)
  {
    IndexOf(s, pat).Some?
  }

  /** The first occurrence is the one no earlier position matches. */
  lemma {:induction false} IndexOfIs(s: string, pat: string, k: nat)
    requires MatchesAt(s, pat, k)
    requires forall j :: 0 <= j < k ==> !MatchesAt(s, pat, j)
    ensures IndexOf(s, pat) == Some(k)
  {
  }

  /** `s.split(pat)[1]`: the text after the first occurrence (the caller has
      checked that there is one). */
  function After(s: string, pat: string): string
  {
    match IndexOf(s, pat)
    case Some(i) => s[i + |pat|..]
    case None => []
  }

  /** `s.split(pat)[0]`: the text before the first occurrence, or all of it. */
  function Before(s: string, pat: string): (r: string)
    ensures r <= s
  {
    match IndexOf(s, pat)
    case Some(i) => s[..i]
    case None => s
  }

  /** `s.split(pat)[1]`: between the first and second occurrences. */
  function Between(s: string, pat: string): string
  {
    Before(After(s, pat), pat)
  }

  /** Drops leading white space: what is left is a suffix of `s`. */
  function StripStart(s: string): (r: string)
    ensures |r| <= |s| && r == s[|s| - |r|..]
    ensures r != [] ==> !PostPrefix.IsSpace(r[0])
    ensures forall i :: 0 <= i < |s| - |r| ==> PostPrefix.IsSpace(s[i])
  {
    if s != [] && PostPrefix.IsSpace(s[0]) then
      var r := StripStart(s[1..]);
      assert forall i :: 1 <= i < |s| - |r| ==> s[i] == s[1..][i - 1];
      r
    else s
  }

  /** Drops trailing white space: what is left is a prefix of `s`. */
  function StripEnd(s: string): (r: string)
    ensures r <= s
    ensures r != [] ==> !PostPrefix.IsSpace(r[|r| - 1])
    ensures forall i :: |r| <= i < |s| ==> PostPrefix.IsSpace(s[i])
  {
    if s != [] && PostPrefix.IsSpace(s[|s| - 1]) then StripEnd(s[..|s| - 1]) else s
  }

  /** `str.strip()`: drops leading and trailing white space. */
  function Strip(s: string): string
  {
    StripEnd(StripStart(s))
  }

  /** Strip keeps the middle of `s` and only drops white space around it. */
  lemma {:induction false} StripKeepsMiddle(s: string) returns (i: nat)
    ensures i + |Strip(s)| <= |s| && Strip(s) == s[i..i + |Strip(s)|]
    ensures forall k :: 0 <= k < i ==> PostPrefix.IsSpace(s[k])
    ensures forall k :: i + |Strip(s)| <= k < |s| ==> PostPrefix.IsSpace(s[k])
  {
    var t := StripStart(s);
    var r := StripEnd(t);
    i := |s| - |t|;
    PrefixOfSuffix(s, t, r, i);
  }

  /** What strip() keeps neither starts nor ends with white space. */
  lemma {:induction false} StripEdges(s: string)
    ensures Strip(s) != [] ==> !PostPrefix.IsSpace(Strip(s)[0]) && !PostPrefix.IsSpace(Strip(s)[|Strip(s)| - 1])
  {
    var t := StripStart(s);
    var r := StripEnd(t);
    if r != [] {
      assert r[0] == t[0];
    }
  }

  /** A prefix `r` of the suffix `t` of `s` that starts at `i`, followed in
      `t` by white space only, sits at `i` in `s`, followed by white space
      only. */
  lemma {:induction false} PrefixOfSuffix(s: string, t: string, r: string, i: nat)
    requires i <= |s| && t == s[i..] && r <= t
    requires forall k :: |r| <= k < |t| ==> PostPrefix.IsSpace(t[k])
    ensures i + |r| <= |s| && r == s[i..i + |r|]
    ensures forall k :: i + |r| <= k < |s| ==> PostPrefix.IsSpace(s[k])
  {
    forall k | i + |r| <= k < |s| ensures PostPrefix.IsSpace(s[k]) {
      assert s[k] == t[k - i];
    }
  }

  // ---------------------------------------------------------------------
  // Fence extraction
  // ---------------------------------------------------------------------

  const JsonFence: string := "```json"
  const Fence: string := "```"

  /** The fence handling before `json.loads`: the text inside a ```json
      fence, else inside a plain ``` fence, stripped; unfenced text is
      passed on as it is. */
  function ExtractFenced(content: string): string
  {
    if Contains(content, JsonFence) then Strip(Before(Between(content, JsonFence), Fence))
    else if Contains(content, Fence) then Strip(Before(Between(content, Fence), Fence))
    else content
  }

  predicate NoTicks(s: string)
  {
    forall i :: 0 <= i < |s| ==> s[i] != '`'
  }

  /** A string without a backtick contains no fence. */
  lemma {:induction false} NoTicksNoFence(s: string, pat: string)
    requires NoTicks(s) && |pat| > 0 && pat[0] == '`'
    ensures IndexOf(s, pat).None?
  {
  }

  /** In `a + "```" + b` with no other backtick, a fence can only start at
      the three backticks. */
  lemma {:induction false} OneTickRun(a: string, b: string, pat: string, j: nat)
    requires NoTicks(a) && NoTicks(b) && |pat| >= 3 && pat[..3] == Fence
    requires MatchesAt(a + Fence + b, pat, j)
    ensures j == |a|
  {
    var x := a + Fence + b;
    assert x[j..j + |pat|][..3] == Fence;
    assert x[j] == '`' && x[j + 1] == '`' && x[j + 2] == '`';
  }

  /** The first fence in `a + "```" + b` sits right after `a`. */
  lemma {:induction false} FenceAfterPlainText(a: string, b: string)
    requires NoTicks(a)
    ensures IndexOf(a + Fence + b, Fence) == Some(|a|)
    ensures Before(a + Fence + b, Fence) == a
  {
    var x := a + Fence + b;
    assert x[|a|..|a| + 3] == Fence;
    forall j | 0 <= j < |a| ensures !MatchesAt(x, Fence, j) {
      assert x[j] == a[j];
      if j + 3 <= |x| {
        assert x[j..j + 3][0] == x[j];
      }
    }
    IndexOfIs(x, Fence, |a|);
  }

  /** A reply fenced as ```json, with no other backtick around, yields the
      stripped text inside the fence. */
  lemma {:induction false} JsonFenceExtracted(lead: string, body: string, rest: string)
    requires NoTicks(lead) && NoTicks(body) && NoTicks(rest)
    ensures ExtractFenced(lead + JsonFence + body + Fence + rest) == Strip(body)
  {
    var c := lead + JsonFence + body + Fence + rest;
    assert c[|lead|..|lead| + 7] == JsonFence;
    forall j | 0 <= j < |lead| ensures !MatchesAt(c, JsonFence, j) {
      assert c[j] == lead[j];
      if j + 7 <= |c| {
        assert c[j..j + 7][0] == c[j];
      }
    }
    IndexOfIs(c, JsonFence, |lead|);
    var x := body + Fence + rest;
    assert After(c, JsonFence) == x;
    FenceAfterPlainText(body, rest);
    var between := Before(x, JsonFence);
    if IndexOf(x, JsonFence).Some? {
      OneTickRun(body, rest, JsonFence, IndexOf(x, JsonFence).value);
      assert between == body;
      NoTicksNoFence(body, Fence);
    }
  }

  /** A reply fenced with a plain ``` (and no ```json marker) yields the
      stripped text between the first two fences. */
  lemma {:induction false} PlainFenceExtracted(lead: string, body: string, rest: string)
    requires NoTicks(lead) && NoTicks(body)
    requires !Contains(lead + Fence + body + Fence + rest, JsonFence)
    ensures ExtractFenced(lead + Fence + body + Fence + rest) == Strip(body)
  {
    var c := lead + Fence + body + Fence + rest;
    assert c == lead + Fence + (body + Fence + rest);
    FenceAfterPlainText(lead, body + Fence + rest);
    assert After(c, Fence) == body + Fence + rest;
    FenceAfterPlainText(body, rest);
    NoTicksNoFence(body, Fence);
  }

  /** A reply without any fence is decoded as it stands. */
  lemma {:induction false} UnfencedUnchanged(content: string)
    requires !Contains(content, Fence)
    ensures ExtractFenced(content) == content
  {
    if Contains(content, JsonFence) {
      var k := IndexOf(content, JsonFence).value;
      assert content[k..k + 7][..3] == content[k..k + 3];
      assert MatchesAt(content, Fence, k);
    }
  }

  // ---------------------------------------------------------------------
  // Normalising the decoded reply
  // ---------------------------------------------------------------------

  function Get(fields: seq<(string, Json)>, key: string): Option<Json>
  {
    if fields == [] then None
    else if fields[0].0 == key then Some(fields[0].1)
    else Get(fields[1..], key)
  }

  /** The first field whose value is a list. */
  function FirstList(fields: seq<(string, Json)>): (r: Option<Json>)
    ensures r.Some? ==> r.value.JArr?
  {
    if fields == [] then None
    else if fields[0].1.JArr? then Some(fields[0].1)
    else FirstList(fields[1..])
  }

  /** An object reply is replaced by its `results`, else `comments`, else
      `moderation` field, else its first list-valued field; anything else
      is kept. */
  function Unwrap(data: Json): Json
  {
    match data
    case JObj(fields) =>
      if Get(fields, "results").Some? then Get(fields, "results").value
      else if Get(fields, "comments").Some? then Get(fields, "comments").value
      else if Get(fields, "moderation").Some? then Get(fields, "moderation").value
      else FirstList(fields).GetOr(data)
    case _ => data
  }

  /** Python's type name, as the error message shows it. */
  function TypeName(data: Json): string
  {
    match data
    case JNull => "<class 'NoneType'>"
    case JBool(_) => "<class 'bool'>"
    case JNum(_) => "<class 'int'>"
    case JStr(_) => "<class 'str'>"
    case JArr(_) => "<class 'list'>"
    case JObj(_) => "<class 'dict'>"
  }

  /** One record from one object of the reply; missing fields default to
      id `''`, hide false, reason None and explanation `''`. */
  function Record(fields: seq<(string, Json)>): FilterResult
  {
    FilterResult(Get(fields, "id").GetOr(JStr("")), Get(fields, "hide").GetOr(JBool(false)),
                 Get(fields, "reason").GetOr(JNull), Get(fields, "explanation").GetOr(JStr("")), false)
  }

  function Records(items: seq<Json>): seq<FilterResult>
  {
    if items == [] then []
    else Records(items[..|items| - 1])
         + (if items[|items| - 1].JObj? then [Record(items[|items| - 1].fields)] else [])
  }

  /** The reply after `json.loads`, as result records, or the ValueError
      raised when it does not come down to a list. */
  function Normalise(data: Json): Result<seq<FilterResult>, string>
  {
    var d := Unwrap(data);
    if d.JArr? then Ok(Records(d.items))
    else Err("Expected list of results, got " + TypeName(d))
  }

  /** One record per object item, in order, none asking for a retry; other
      items are skipped. */
  lemma {:induction false} RecordsOfItems(items: seq<Json>)
    ensures |Records(items)| == Count(items, (j: Json) => j.JObj?)
    ensures forall k :: 0 <= k < |Records(items)| ==> !Records(items)[k].needsRetry
    ensures (forall k :: 0 <= k < |items| ==> items[k].JObj?) ==>
      |Records(items)| == |items| && forall k :: 0 <= k < |items| ==> Records(items)[k] == Record(items[k].fields)
  {
    if items != [] {
      var init := items[..|items| - 1];
      RecordsOfItems(init);
      if forall k :: 0 <= k < |items| ==> items[k].JObj? {
        assert forall k :: 0 <= k < |init| ==> init[k].JObj? by {
          forall k | 0 <= k < |init| ensures init[k].JObj? { assert init[k] == items[k]; }
        }
      }
    }
  }

  /** A list reply is taken as it is; an object with a `results` key is
      judged by that field alone, even when another key holds a list; a
      reply that is neither object nor list is an error. */
  lemma {:induction false} NormaliseCases(data: Json, fields: seq<(string, Json)>)
    ensures data.JArr? ==> Normalise(data) == Ok(Records(data.items))
    ensures Get(fields, "results").Some? && !Get(fields, "results").value.JArr? ==> Normalise(JObj(fields)).Err?
    ensures Get(fields, "results").Some? && Get(fields, "results").value.JArr? ==>
      Normalise(JObj(fields)) == Ok(Records(Get(fields, "results").value.items))
    ensures !data.JArr? && !data.JObj? ==> Normalise(data).Err?
    ensures (Get(fields, "results").None? && Get(fields, "comments").None? && Get(fields, "moderation").None?
             && FirstList(fields).None?) ==> Normalise(JObj(fields)) == Err("Expected list of results, got <class 'dict'>")
  {
    if Get(fields, "results").None? && Get(fields, "comments").None? && Get(fields, "moderation").None? && FirstList(fields).None? {
      assert Unwrap(JObj(fields)) == JObj(fields);
      assert "Expected list of results, got " + "<class 'dict'>" == "Expected list of results, got <class 'dict'>";
    }
  }

  // ---------------------------------------------------------------------
  // Batches
  // ---------------------------------------------------------------------

  /** `_filter_batch`: the reply (or the exception the call raised), fence
      extraction, decoding (or its exception), normalisation. */
  function FilterBatch(batch: seq<Comment>, respond: seq<Comment> -> Result<string, string>,
                       decode: string -> Result<Json, string>): Result<seq<FilterResult>, string>
  {
    match respond(batch)
    case Err(e) => Err(e)
    case Ok(content) =>
      match decode(ExtractFenced(content))
      case Err(e) => Err(e)
      case Ok(d) => Normalise(d)
  }

  /** The records for one batch that failed with message `e`. */
  function Fallback(batch: seq<Comment>, e: string): (rs: seq<FilterResult>)
    ensures |rs| == |batch|
  {
    seq(|batch|, k requires 0 <= k < |batch| => FilterResult(JStr(batch[k].commentId), JBool(false), JNull, JStr("Error: " + e), true))
  }

  /** `_filter_batch` as the loop sees it: per batch, the records or the
      message of the exception it raised. */
  type BatchFilter = seq<Comment> -> Result<seq<FilterResult>, string>

  /** The batch filter this module defines, for a given API and decoder. */
  function ModelFilter(respond: seq<Comment> -> Result<string, string>, decode: string -> Result<Json, string>): BatchFilter
  {
    b => FilterBatch(b, respond, decode)
  }

  /** What one pass of the loop adds: the batch's records, or its fallback
      records when the filter raised. */
  function BatchOutcome(batch: seq<Comment>, filter: BatchFilter): seq<FilterResult>
  {
    match filter(batch)
    case Ok(rs) => rs
    case Err(e) => Fallback(batch, e)
  }

  /** A failing batch gives one record per comment of the batch, in order,
      not hidden, without a reason, marked for retry. */
  lemma {:induction false} FailedBatchRetries(batch: seq<Comment>, filter: BatchFilter)
    requires filter(batch).Err?
    ensures var rs := BatchOutcome(batch, filter);
      && |rs| == |batch|
      && forall k :: 0 <= k < |rs| ==>
           rs[k].commentId == JStr(batch[k].commentId) && rs[k].shouldHide == JBool(false)
           && rs[k].reason == JNull && rs[k].needsRetry
  {
  }

  /** With this module's filter, a batch that succeeds has no record marked
      for retry. */
  lemma {:induction false} BatchOutcomeRetries(batch: seq<Comment>, respond: seq<Comment> -> Result<string, string>,
                                               decode: string -> Result<Json, string>)
    requires FilterBatch(batch, respond, decode).Ok?
    ensures forall r :: r in BatchOutcome(batch, ModelFilter(respond, decode)) ==> !r.needsRetry
  {
    match respond(batch)
    case Ok(content) =>
      var d := decode(ExtractFenced(content)).value;
      RecordsOfItems(Unwrap(d).items);
  }

  function Min(a: int, b: int): int { if a <= b then a else b }

  /** `comments[i:i + size]` for i = 0, size, 2 * size, ... below the
      length. */
  function Slices(c: seq<Comment>, size: nat, i: nat): seq<seq<Comment>>
    requires size > 0
    decreases |c| - i
  {
    if i >= |c| then [] else [c[i..Min(i + size, |c|)]] + Slices(c, size, i + size)
  }

  function Flatten<T>(xs: seq<seq<T>>): seq<T>
  {
    if xs == [] then [] else xs[0] + Flatten(xs[1..])
  }

  /** The slices cover the comments exactly once and in order; each has
      between 1 and `size` comments, and all but the last exactly `size`. */
  lemma {:induction false} SlicesCover(c: seq<Comment>, size: nat, i: nat)
    requires size > 0 && i <= |c|
    ensures Flatten(Slices(c, size, i)) == c[i..]
    ensures forall b :: b in Slices(c, size, i) ==> 1 <= |b| <= size
    ensures forall k :: 0 <= k < |Slices(c, size, i)| - 1 ==> |Slices(c, size, i)[k]| == size
    decreases |c| - i
  {
    if i < |c| {
      var next := Min(i + size, |c|);
      SlicesCover(c, size, next);
      if i + size < |c| {
        assert Slices(c, size, i) == [c[i..next]] + Slices(c, size, next);
      } else {
        assert Slices(c, size, i + size) == [];
      }
      assert c[i..] == c[i..next] + c[next..];
    }
  }

  /** What the loop produces for the batches, in order. */
  function ResultsOf(batches: seq<seq<Comment>>, filter: BatchFilter): seq<FilterResult>
  {
    if batches == [] then [] else BatchOutcome(batches[0], filter) + ResultsOf(batches[1..], filter)
  }

  /** The records `rs` line up one to one with the comments `c`, all
      marked for retry. */
  predicate AllRetry(rs: seq<FilterResult>, c: seq<Comment>)
  {
    |rs| == |c| && forall k :: 0 <= k < |rs| ==> rs[k].commentId == JStr(c[k].commentId) && rs[k].needsRetry
  }

  /** When every batch fails, the records line up one to one with the
      comments, all marked for retry. */
  lemma AllFailedLineUp(c: seq<Comment>, size: nat, i: nat, filter: BatchFilter)
    requires size > 0 && i <= |c|
    requires forall b :: b in Slices(c, size, i) ==> filter(b).Err?
    ensures AllRetry(ResultsOf(Slices(c, size, i), filter), c[i..])
  {
    FailedBatchesRetry(Slices(c, size, i), filter);
    SlicesCover(c, size, i);
  }

  /** Failing batches give retry records for all their comments, in order. */
  lemma {:induction false} FailedBatchesRetry(batches: seq<seq<Comment>>, filter: BatchFilter)
    requires forall b :: b in batches ==> filter(b).Err?
    ensures AllRetry(ResultsOf(batches, filter), Flatten(batches))
  {
    if batches != [] {
      assert batches[0] in batches;
      assert forall b :: b in batches[1..] ==> b in batches;
      FailedBatchesRetry(batches[1..], filter);
      FailedBatchRetries(batches[0], filter);
      RetriesJoin(BatchOutcome(batches[0], filter), ResultsOf(batches[1..], filter), batches[0], Flatten(batches[1..]));
    }
  }

  /** Retry records of two runs of comments join into those of both. */
  lemma RetriesJoin(out: seq<FilterResult>, rest: seq<FilterResult>, c1: seq<Comment>, c2: seq<Comment>)
    requires AllRetry(out, c1) && AllRetry(rest, c2)
    ensures AllRetry(out + rest, c1 + c2)
  {
    forall k | 0 <= k < |out + rest| ensures (out + rest)[k].commentId == JStr((c1 + c2)[k].commentId) && (out + rest)[k].needsRetry {
      if k < |out| {
        assert (out + rest)[k] == out[k] && (c1 + c2)[k] == c1[k];
      } else {
        assert (out + rest)[k] == rest[k - |out|] && (c1 + c2)[k] == c2[k - |out|];
      }
    }
  }





  /** `filter_comments_batch`: nothing without a client; otherwise every
      slice in turn, a failing one replaced by its fallback records.
      Python's `range` refuses a zero step; a negative one gives no
      slices. */
  method FilterCommentsBatch(hasClient: bool, comments: seq<Comment>, batchSize: int,
                             respond: seq<Comment> -> Result<string, string>, decode: string -> Result<Json, string>)
    returns (results: seq<FilterResult>)
    requires batchSize != 0
    ensures !hasClient || batchSize < 0 ==> results == []
    ensures hasClient && batchSize > 0 ==> results == ResultsOf(Slices(comments, batchSize, 0), ModelFilter(respond, decode))
  {
    if !hasClient || batchSize < 0 {
      return [];
    }
    results := FilterSlices(comments, batchSize, ModelFilter(respond, decode));
  }

  /** The loop of `filter_comments_batch` over `range(0, len, size)`. */
  method FilterSlices(comments: seq<Comment>, size: nat, filter: BatchFilter) returns (results: seq<FilterResult>)
    requires size > 0
    ensures results == ResultsOf(Slices(comments, size, 0), filter)
  {
    results := [];
    var i: nat := 0;
    while i < |comments|
      invariant results + ResultsOf(Slices(comments, size, i), filter) == ResultsOf(Slices(comments, size, 0), filter)
      decreases |comments| - i
    {
      var rs := ProcessBatch(comments[i..Min(i + size, |comments|)], filter);
      ResultsStep(comments, size, i, filter);
      results := results + rs;
      i := i + size;
    }
    assert Slices(comments, size, i) == [];
  }

  /** One pass of the loop: the batch's records, or its fallback records
      when the filter raised. */
  method ProcessBatch(batch: seq<Comment>, filter: BatchFilter) returns (rs: seq<FilterResult>)
    ensures rs == BatchOutcome(batch, filter)
  {
    var outcome := filter(batch);
    match outcome {
      case Ok(records) =>
        rs := records;
      case Err(e) =>
        rs := FallbackRecords(batch, e);
    }
  }

  /** The loop that builds the fallback records of a failed batch. */
  method FallbackRecords(batch: seq<Comment>, e: string) returns (rs: seq<FilterResult>)
    ensures rs == Fallback(batch, e)
  {
    rs := [];
    for k := 0 to |batch|
      invariant rs == Fallback(batch[..k], e)
    {
      rs := rs + [FilterResult(JStr(batch[k].commentId), JBool(false), JNull, JStr("Error: " + e), true)];
    }
    assert batch[..|batch|] == batch;
  }

  /** The results of the slices from `i` on are the first slice's outcome
      followed by the results of the slices after it. */
  lemma {:induction false} ResultsStep(c: seq<Comment>, size: nat, i: nat, filter: BatchFilter)
    requires size > 0 && i < |c|
    ensures ResultsOf(Slices(c, size, i), filter)
            == BatchOutcome(c[i..Min(i + size, |c|)], filter) + ResultsOf(Slices(c, size, i + size), filter)
  {
    assert Slices(c, size, i)[0] == c[i..Min(i + size, |c|)];
    assert Slices(c, size, i)[1..] == Slices(c, size, i + size);
  }
}
