/** Posting windows and slot searches. Times are whole seconds on the local
    clock; a day is 86400 seconds, a window is the second of the day it opens
    at ("HH:MM" gives HH*3600 + MM*60), and the slot of window `w` on day `d`
    is d*86400 + w. Searches never look more than 365 days ahead. */
module Slots {
  import opened Wrappers
  import opened Collections
  import opened PostPrefix

  const Day: int := 86400
  const Horizon: nat := 365

  function DayOf(t: int): int { t / Day }

  function SlotAt(day: int, w: int): int { day * Day + w }

  /** The slot of window `w` on the day `d` days after `today`. */
  function DaySlot(today: int, d: int, w: int): int { SlotAt(today + d, w) }

  /** The time of day truncated to the minute, as seconds since midnight. */
  function MinuteOf(t: int): int { (t % Day) / 60 * 60 }

  predicate ValidWindows(ws: seq<int>) {
    forall i :: 0 <= i < |ws| ==> 0 <= ws[i] < Day
  }

  predicate IntLe(a: int, b: int) { a <= b }

  // ---------------------------------------------------------------------
  // load_posting_windows
  // ---------------------------------------------------------------------

  /** What the configuration file holds: no file at all, or a file whose
      `posting_windows` key may be missing. */
  datatype Config = NoConfigFile | ConfigFile(postingWindows: Option<seq<string>>)

  const DefaultWindowTexts: seq<string> := ["09:00", "14:00", "19:00"]
  const DefaultWindows: seq<int> := [32400, 50400, 68400]

  /** The second of the day at which `hour:minute` opens. */
  function WindowSeconds(h: int, m: int): (w: int)
    requires 0 <= h < 24 && 0 <= m < 60
    ensures 0 <= w < Day && w % 60 == 0
  {
    assert h * 3600 <= 23 * 3600;
    (h * 60 + m) * 60
  }

  /** `hour, minute = map(int, w.split(':')); time(hour, minute)`: exactly
      two fields, each an integer, with 0 <= hour < 24 and 0 <= minute < 60;
      anything else raises (None here). */
  function ParseWindow(w: string): (r: Option<int>)
    ensures r.Some? ==> 0 <= r.value < Day && r.value % 60 == 0
  {
    var parts := Split(w, ':');
    if |parts| != 2 then None
    else
      var h := ParseIntText(parts[0]);
      var m := ParseIntText(parts[1]);
      if h.Some? && m.Some? && 0 <= h.value < 24 && 0 <= m.value < 60 then
        Some(WindowSeconds(h.value, m.value))
      else None
  }

  /** Parses every text in order with `parse`; the first one that does not
      parse is the error. */
  function ParseEach<T>(texts: seq<string>, parse: string -> Option<T>): (r: Result<seq<T>, string>)
    ensures r.Ok? ==> |r.value| == |texts|
    ensures r.Ok? ==> forall i :: 0 <= i < |texts| ==> parse(texts[i]) == Some(r.value[i])
    ensures r.Err? ==> r.error in texts && parse(r.error).None?
    ensures r.Ok? <==> forall i :: 0 <= i < |texts| ==> parse(texts[i]).Some?
  {
    if texts == [] then Ok([])
    else
      var first := parse(texts[0]);
      var rest := ParseEach(texts[1..], parse);
      assert forall i :: 1 <= i < |texts| ==> texts[i] == texts[1..][i - 1];
      if first.None? then Err(texts[0])
      else if rest.Err? then Err(rest.error)
      else Ok([first.value] + rest.value)
  }

  /** The configured windows, each parsed as "HH:MM". */
  function ParseWindows(texts: seq<string>): (r: Result<seq<int>, string>)
    ensures r.Ok? ==> ValidWindows(r.value)
  {
    ParseEach(texts, ParseWindow)
  }

  /** `load_posting_windows`: the configured windows sorted ascending, or the
      defaults when there is no file or no key. */
  function LoadPostingWindows(cfg: Config): Result<seq<int>, string>
  {
    match cfg
    case NoConfigFile => Ok(DefaultWindows)
    case ConfigFile(texts) =>
      match ParseWindows(texts.GetOr(DefaultWindowTexts))
      case Ok(ws) => Ok(SortBy(ws, IntLe))
      case Err(e) => Err(e)
  }

  /** A configured list loads exactly when every window parses; it is then
      sorted, lies within the day and holds exactly the configured windows;
      otherwise the error is a window that does not parse. */
  lemma {:induction false} LoadedWindowsSorted(texts: seq<string>)
    ensures LoadPostingWindows(ConfigFile(Some(texts))).Ok? <==> forall i :: 0 <= i < |texts| ==> ParseWindow(texts[i]).Some?
    ensures LoadPostingWindows(ConfigFile(Some(texts))).Err? ==>
      var e := LoadPostingWindows(ConfigFile(Some(texts))).error;
      e in texts && ParseWindow(e).None?
    ensures LoadPostingWindows(ConfigFile(Some(texts))).Ok? ==>
      var ws := LoadPostingWindows(ConfigFile(Some(texts))).value;
      && SortedBy(ws, IntLe) && ValidWindows(ws)
      && multiset(ws) == multiset(seq(|texts|, i requires 0 <= i < |texts| => ParseWindow(texts[i]).GetOr(0)))
  {
    LoadedFrom(texts);
    if ParseWindows(texts).Ok? {
      ParsedWindowsSorted(ParseWindows(texts).value, texts);
    }
  }

  /** Sorting the parsed windows keeps them within the day and keeps each
      configured window once. */
  lemma {:induction false} ParsedWindowsSorted(parsed: seq<int>, texts: seq<string>)
    requires ParseWindows(texts) == Ok(parsed)
    ensures var ws := SortBy(parsed, IntLe);
      && SortedBy(ws, IntLe) && ValidWindows(ws)
      && multiset(ws) == multiset(seq(|texts|, i requires 0 <= i < |texts| => ParseWindow(texts[i]).GetOr(0)))
  {
    SortedWindows(parsed);
    ParsedAsListed(parsed, texts);
  }

  lemma {:induction false} SortedWindows(parsed: seq<int>)
    requires ValidWindows(parsed)
    ensures var ws := SortBy(parsed, IntLe);
      SortedBy(ws, IntLe) && ValidWindows(ws) && multiset(ws) == multiset(parsed)
  {
    var ws := SortBy(parsed, IntLe);
    SortSorted(parsed, IntLe);
    SortPermutes(parsed, IntLe);
    forall i | 0 <= i < |ws| ensures 0 <= ws[i] < Day {
      assert ws[i] in multiset(parsed);
    }
  }

  lemma {:induction false} ParsedAsListed(parsed: seq<int>, texts: seq<string>)
    requires ParseWindows(texts) == Ok(parsed)
    ensures parsed == seq(|texts|, i requires 0 <= i < |texts| => ParseWindow(texts[i]).GetOr(0))
  {
    assert forall i :: 0 <= i < |texts| ==> ParseWindow(texts[i]) == Some(parsed[i]);
  }

  /** A configured list is parsed, then sorted. */
  lemma {:induction false} LoadedFrom(texts: seq<string>)
    ensures LoadPostingWindows(ConfigFile(Some(texts))) ==
      if ParseWindows(texts).Ok? then Ok(SortBy(ParseWindows(texts).value, IntLe)) else Err(ParseWindows(texts).error)
  {
  }

  /** `x` as two decimal digits, with a leading zero below ten. */
  function TwoDigitText(x: nat): (t: string)
    requires x < 100
    ensures |t| == 2 && ':' !in t
  {
    [DigitChar(x / 10), DigitChar(x % 10)]
  }

  lemma {:induction false} TrimDigits(a: string)
    requires |a| > 0 && IsDigit(a[0]) && IsDigit(a[|a| - 1])
    ensures TrimEnd(TrimStart(a)) == a
  {
    assert !IsSpace(a[0]);
    assert TrimStart(a) == a;
    assert !IsSpace(a[|a| - 1]);
  }

  /** Two decimal digits read back as their value, leading zero included. */
  lemma {:induction false} TwoDigits(x: nat)
    requires x < 100
    ensures ParseIntText(TwoDigitText(x)) == Some(x)
  {
    var a := TwoDigitText(x);
    TrimDigits(a);
    var d1, d2 := x / 10, x % 10;
    assert x == d1 * 10 + d2;
    assert a[..1] == [DigitChar(d1)] && a[..1][..0] == [];
    assert DigitsValue(a[..1]) == d1;
    assert DigitsValue(a) == d1 * 10 + d2;
  }

  lemma {:induction false} SplitAtColon(a: string, b: string)
    requires |a| == 2 && |b| == 2 && ':' !in a && ':' !in b
    ensures Split(a + [':'] + b, ':') == [a, b]
  {
    var text := a + [':'] + b;
    assert a[0] in a && a[1] in a && b[0] in b && b[1] in b;
    var r5 := Split(text[5..], ':');
    assert r5 == [[]] by { assert text[5..] == []; }
    var r4 := Split(text[4..], ':');
    assert r4 == [[b[1]]] by {
      assert text[4..][1..] == text[5..];
      assert r5[0] == [] && r5[1..] == [];
      assert [b[1]] + [] == [b[1]];
    }
    var r3 := Split(text[3..], ':');
    assert r3 == [b] by {
      assert text[3..][1..] == text[4..];
      assert r4[0] == [b[1]] && r4[1..] == [];
      assert [b[0]] + [b[1]] == b;
    }
    var r2 := Split(text[2..], ':');
    assert r2 == [[], b] by { assert text[2..][1..] == text[3..]; }
    var r1 := Split(text[1..], ':');
    assert r1 == [[a[1]], b] by {
      assert text[1..][1..] == text[2..];
      assert r2[0] == [] && r2[1..] == [b];
      assert [a[1]] + [] == [a[1]];
    }
    assert r1[0] == [a[1]] && r1[1..] == [b];
    assert [a[0]] + [a[1]] == a;
  }

  /** "HH:MM" with two-digit fields parses to its second of the day. */
  lemma {:induction false} ParseTwoDigitWindow(h: nat, m: nat)
    requires h < 24 && m < 60
    ensures ParseWindow(TwoDigitText(h) + [':'] + TwoDigitText(m)) == Some(WindowSeconds(h, m))
  {
    SplitAtColon(TwoDigitText(h), TwoDigitText(m));
    TwoDigits(h);
    TwoDigits(m);
  }

  /** The default windows, given as variables so that the verifier does not
      evaluate the parse of a literal string eagerly. */
  lemma {:induction false} DefaultTextsEach(t0: string, t1: string, t2: string)
    requires [t0, t1, t2] == DefaultWindowTexts
    ensures ParseWindow(t0) == Some(32400) && ParseWindow(t1) == Some(50400) && ParseWindow(t2) == Some(68400)
  {
    assert t0 == TwoDigitText(9) + [':'] + TwoDigitText(0);
    assert t1 == TwoDigitText(14) + [':'] + TwoDigitText(0);
    assert t2 == TwoDigitText(19) + [':'] + TwoDigitText(0);
    ParseTwoDigitWindow(9, 0);
    ParseTwoDigitWindow(14, 0);
    ParseTwoDigitWindow(19, 0);
  }

  lemma {:induction false} ParseThree(a: string, b: string, c: string, parse: string -> Option<int>, x: int, y: int, z: int)
    requires parse(a) == Some(x) && parse(b) == Some(y) && parse(c) == Some(z)
    ensures ParseEach([a, b, c], parse) == Ok([x, y, z])
  {
    var texts := [a, b, c];
    assert forall i :: 0 <= i < |texts| ==> parse(texts[i]).Some?;
    var ws := ParseEach(texts, parse).value;
    assert |ws| == 3 && ws[0] == x && ws[1] == y && ws[2] == z;
    assert ws == [x, y, z];
  }

  lemma {:induction false} DefaultTextsParse(texts: seq<string>)
    requires texts == DefaultWindowTexts
    ensures ParseWindows(texts) == Ok(DefaultWindows)
  {
    DefaultTextsEach(texts[0], texts[1], texts[2]);
    ParseThree(texts[0], texts[1], texts[2], ParseWindow, 32400, 50400, 68400);
    assert texts == [texts[0], texts[1], texts[2]];
  }

  lemma {:induction false} DefaultsSorted(ws: seq<int>)
    requires ws == DefaultWindows
    ensures SortBy(ws, IntLe) == DefaultWindows
  {
    assert SortedBy(ws, IntLe);
    SortOfSorted(ws, IntLe);
  }

  /** With no file, and with a file that has no `posting_windows` key, the
      windows are 09:00, 14:00 and 19:00. */
  lemma {:induction false} DefaultWindowsAgree(cfg: Config)
    requires cfg == NoConfigFile || cfg == ConfigFile(None)
    ensures LoadPostingWindows(cfg) == Ok(DefaultWindows)
  {
    if cfg.ConfigFile? {
      DefaultTextsParse(cfg.postingWindows.GetOr(DefaultWindowTexts));
      DefaultsSorted(ParseWindows(cfg.postingWindows.GetOr(DefaultWindowTexts)).value);
    }
  }

  // ---------------------------------------------------------------------
  // get_next_available_slot
  // ---------------------------------------------------------------------

  /** Window `w` on `day` is free: not already taken and, when `after` is
      given, strictly after it. */
  predicate Free(day: int, w: int, after: Option<int>, taken: set<int>) {
    (after.None? || SlotAt(day, w) > after.value) && SlotAt(day, w) !in taken
  }

  /** Index of the first free window of `day` at or after index `k`. */
  function FirstFree(day: int, ws: seq<int>, after: Option<int>, taken: set<int>, k: nat): (r: Option<nat>)
    requires k <= |ws|
    ensures r.Some? ==> k <= r.value < |ws| && Free(day, ws[r.value], after, taken)
    ensures r.Some? ==> forall j :: k <= j < r.value ==> !Free(day, ws[j], after, taken)
    ensures r.None? ==> forall j :: k <= j < |ws| ==> !Free(day, ws[j], after, taken)
    decreases |ws| - k
  {
    if k == |ws| then None
    else if Free(day, ws[k], after, taken) then Some(k)
    else FirstFree(day, ws, after, taken, k + 1)
  }

  /** The search over days `today + d` .. `today + 365`, taking the first
      window not already taken. */
  function LaterDays(today: int, ws: seq<int>, taken: set<int>, d: nat): (r: Option<int>)
    requires d >= 1
    ensures r.Some? ==> r.value !in taken
    ensures r.Some? ==> exists e, i :: d <= e <= Horizon && 0 <= i < |ws| && r.value == DaySlot(today, e, ws[i])
    ensures r.None? ==> forall e, i :: d <= e <= Horizon && 0 <= i < |ws| ==> DaySlot(today, e, ws[i]) in taken
    decreases Horizon + 1 - d
  {
    if d > Horizon then None
    else
      match FirstFree(today + d, ws, None, taken, 0)
      case Some(i) => Some(DaySlot(today, d, ws[i]))
      case None => LaterDays(today, ws, taken, d + 1)
  }

  /** `get_next_available_slot`: today's first window after now that is not
      taken; else the first window not taken on days 1..365; else tomorrow's
      first window. With no windows that last step raises (None). */
  function NextAvailableSlot(ws: seq<int>, now: int, taken: set<int>): Option<int>
  {
    var today := DayOf(now);
    match FirstFree(today, ws, Some(now), taken, 0)
    case Some(i) => Some(SlotAt(today, ws[i]))
    case None =>
      match LaterDays(today, ws, taken, 1)
      case Some(s) => Some(s)
      case None => if ws == [] then None else Some(SlotAt(today + 1, ws[0]))
  }

  /** The slot returned is free and after now, unless every slot of the next
      365 days is taken, in which case it is tomorrow's first window. */
  lemma {:induction false} NextSlotFreeOrFallback(ws: seq<int>, now: int, taken: set<int>)
    requires ValidWindows(ws)
    ensures ws == [] <==> NextAvailableSlot(ws, now, taken).None?
    ensures NextAvailableSlot(ws, now, taken).Some? ==>
      var s := NextAvailableSlot(ws, now, taken).value;
      || (s !in taken && s > now)
      || (&& s == SlotAt(DayOf(now) + 1, ws[0])
          && (forall i :: 0 <= i < |ws| ==> !Free(DayOf(now), ws[i], Some(now), taken))
          && (forall e, i :: 1 <= e <= Horizon && 0 <= i < |ws| ==> DaySlot(DayOf(now), e, ws[i]) in taken))
  {
    var today := DayOf(now);
    assert today * Day <= now < today * Day + Day;
    if FirstFree(today, ws, Some(now), taken, 0).None? {
      var later := LaterDays(today, ws, taken, 1);
      if later.Some? {
        var e, i :| 1 <= e <= Horizon && 0 <= i < |ws| && later.value == DaySlot(today, e, ws[i]);
        assert DaySlot(today, e, ws[i]) >= (today + 1) * Day by {
          assert (today + e) * Day >= (today + 1) * Day;
        }
      }
    }
  }

  /** A free window today that is after now is always the answer, and the
      earliest such one is taken. */
  lemma {:induction false} NextSlotPrefersToday(ws: seq<int>, now: int, taken: set<int>, i: nat)
    requires i < |ws| && Free(DayOf(now), ws[i], Some(now), taken)
    ensures NextAvailableSlot(ws, now, taken).Some?
    ensures exists j :: (&& 0 <= j <= i
                         && NextAvailableSlot(ws, now, taken).value == SlotAt(DayOf(now), ws[j])
                         && Free(DayOf(now), ws[j], Some(now), taken))
  {
    var r := FirstFree(DayOf(now), ws, Some(now), taken, 0);
    assert r.Some?;
    assert r.value <= i;
  }

  // ---------------------------------------------------------------------
  // schedule_post
  // ---------------------------------------------------------------------

  /** What `schedule_post` hands to the store's `schedule_post`, which is
      not part of this model: the entry, its text and the chosen slot. */
  datatype ScheduleRequest = ScheduleRequest(entryId: nat, text: string, slot: int)

  /** `schedule_post`: the entry goes to the next available slot. */
  function SchedulePost(entryId: nat, text: string, ws: seq<int>, now: int, taken: set<int>): Option<ScheduleRequest>
  {
    match NextAvailableSlot(ws, now, taken)
    case Some(slot) => Some(ScheduleRequest(entryId, text, slot))
    case None => None
  }

  /** The request carries the entry unchanged and a slot that is free and in
      the future, unless the whole year ahead is taken; only an empty window
      list fails. */
  lemma {:induction false} SchedulePostUsesFreeSlot(entryId: nat, text: string, ws: seq<int>, now: int, taken: set<int>)
    requires ValidWindows(ws)
    ensures SchedulePost(entryId, text, ws, now, taken).None? <==> ws == []
    ensures SchedulePost(entryId, text, ws, now, taken).Some? ==>
      var q := SchedulePost(entryId, text, ws, now, taken).value;
      && q.entryId == entryId && q.text == text
      && ((q.slot > now && q.slot !in taken) || q.slot == SlotAt(DayOf(now) + 1, ws[0]))
  {
    NextSlotFreeOrFallback(ws, now, taken);
  }

  // ---------------------------------------------------------------------
  // publish_due_posts
  // ---------------------------------------------------------------------

  datatype DuePost = DuePost(id: nat, text: string, time: Option<int>)

  /** One entry of the result list: published with the remote id, or failed. */
  datatype PublishResult =
    | Published(postId: nat, remoteId: string, time: Option<int>)
    | PublishFailed(postId: nat, time: Option<int>)

  /** `publish_due_posts`: without a handler, nothing; otherwise one result per
      due post, in order. `publish` is the remote call (None when it raises)
      and `mark` whether marking the entry published succeeds. */
  method PublishDuePosts(hasHandler: bool, due: seq<DuePost>, publish: string -> Option<string>, mark: (nat, string) -> bool)
    returns (results: seq<PublishResult>)
    ensures !hasHandler ==> results == []
    ensures hasHandler ==> |results| == |due|
    ensures hasHandler ==> forall j :: 0 <= j < |due| ==>
      && results[j].postId == due[j].id && results[j].time == due[j].time
      && (results[j].Published? <==> publish(due[j].text).Some? && mark(due[j].id, publish(due[j].text).value))
      && (results[j].Published? ==> results[j].remoteId == publish(due[j].text).value)
  {
    if !hasHandler {
      return [];
    }
    results := [];
    for i := 0 to |due|
      invariant |results| == i
      invariant forall j :: 0 <= j < i ==>
        && results[j].postId == due[j].id && results[j].time == due[j].time
        && (results[j].Published? <==> publish(due[j].text).Some? && mark(due[j].id, publish(due[j].text).value))
        && (results[j].Published? ==> results[j].remoteId == publish(due[j].text).value)
    {
      var post := due[i];
      var remote := publish(post.text);
      if remote.Some? && mark(post.id, remote.value) {
        results := results + [Published(post.id, remote.value, post.time)];
      } else {
        results := results + [PublishFailed(post.id, post.time)];
      }
    }
  }

  // ---------------------------------------------------------------------
  // The canonical slot sequence of the hole-filling step
  // ---------------------------------------------------------------------

  /** The windows of `day` that fall after now, in window order. */
  function DaySlots(day: int, ws: seq<int>, now: int): seq<int>
  {
    if ws == [] then []
    else DaySlots(day, ws[..|ws| - 1], now)
         + (if SlotAt(day, ws[|ws| - 1]) > now then [SlotAt(day, ws[|ws| - 1])] else [])
  }

  /** The slots after now on days `today` .. `today + k - 1`, skipping the
      days `skip` rules out, day by day in window order. */
  function SlotsThrough(today: int, ws: seq<int>, now: int, skip: int -> bool, k: nat): seq<int>
  {
    if k == 0 then []
    else SlotsThrough(today, ws, now, skip, k - 1)
         + (if skip(today + k - 1) then [] else DaySlots(today + k - 1, ws, now))
  }

  function Take(s: seq<int>, n: nat): (r: seq<int>)
    ensures |r| == if |s| <= n then |s| else n
    ensures r == s[..|r|]
  {
    if |s| <= n then s else s[..n]
  }

  /** The first `n` valid slots within 365 days of today. */
  function CanonicalSlots(ws: seq<int>, now: int, skip: int -> bool, n: nat): seq<int>
  {
    Take(SlotsThrough(DayOf(now), ws, now, skip, Horizon + 1), n)
  }

  lemma {:induction false} SlotsThroughPrefix(today: int, ws: seq<int>, now: int, skip: int -> bool, k: nat, m: nat)
    requires k <= m
    ensures |SlotsThrough(today, ws, now, skip, k)| <= |SlotsThrough(today, ws, now, skip, m)|
    ensures SlotsThrough(today, ws, now, skip, k) == SlotsThrough(today, ws, now, skip, m)[..|SlotsThrough(today, ws, now, skip, k)|]
    decreases m - k
  {
    if k < m {
      SlotsThroughPrefix(today, ws, now, skip, k, m - 1);
    }
  }

  /** `valid_slots` of the hole-filling step: day by day from today, skipping
      ruled-out days, each window after now, until `n` slots are found or the
      365th day has been searched. */
  method ValidSlots(ws: seq<int>, now: int, skip: int -> bool, n: nat) returns (slots: seq<int>)
    ensures slots == CanonicalSlots(ws, now, skip, n)
  {
    var today := DayOf(now);
    slots := [];
    var offset: nat := 0;
    while offset <= Horizon && |slots| < n
      invariant offset <= Horizon + 1
      invariant |slots| <= n
      invariant slots == Take(SlotsThrough(today, ws, now, skip, offset), n)
    {
      var day := today + offset;
      ghost var before := SlotsThrough(today, ws, now, skip, offset);
      assert slots == before;
      if !skip(day) {
        slots := DayInto(slots, day, ws, now, n);
      }
      assert SlotsThrough(today, ws, now, skip, offset + 1) ==
        before + (if skip(day) then [] else DaySlots(day, ws, now));
      offset := offset + 1;
    }
    if offset <= Horizon {
      SlotsThroughPrefix(today, ws, now, skip, offset, Horizon + 1);
    }
  }

  /** The inner loop of `valid_slots`: the windows of `day` after now are
      appended until `n` slots are found. */
  method DayInto(before: seq<int>, day: int, ws: seq<int>, now: int, n: nat) returns (slots: seq<int>)
    requires |before| < n
    ensures slots == Take(before + DaySlots(day, ws, now), n)
  {
    slots := before;
    var j := 0;
    while j < |ws| && |slots| < n
      invariant 0 <= j <= |ws|
      invariant |slots| <= n
      invariant slots == Take(before + DaySlots(day, ws[..j], now), n)
    {
      assert ws[..j + 1][..j] == ws[..j];
      var slot := SlotAt(day, ws[j]);
      if slot > now {
        slots := slots + [slot];
      }
      j := j + 1;
    }
    if j == |ws| {
      assert ws[..j] == ws;
    } else {
      DaySlotsPrefix(day, ws, now, j);
      assert before + DaySlots(day, ws[..j], now) == (before + DaySlots(day, ws, now))[..|before| + |DaySlots(day, ws[..j], now)|];
    }
  }

  lemma {:induction false} DaySlotsPrefix(day: int, ws: seq<int>, now: int, j: nat)
    requires j <= |ws|
    ensures |DaySlots(day, ws[..j], now)| <= |DaySlots(day, ws, now)|
    ensures DaySlots(day, ws[..j], now) == DaySlots(day, ws, now)[..|DaySlots(day, ws[..j], now)|]
    decreases |ws| - j
  {
    if j < |ws| {
      DaySlotsPrefix(day, ws, now, j + 1);
      assert ws[..j + 1][..j] == ws[..j];
    } else {
      assert ws[..j] == ws;
    }
  }

  lemma {:induction false} DaySlotsMembers(day: int, ws: seq<int>, now: int)
    ensures forall s :: s in DaySlots(day, ws, now) <==> s > now && exists w :: w in ws && s == SlotAt(day, w)
  {
    if ws != [] {
      var init := ws[..|ws| - 1];
      DaySlotsMembers(day, init, now);
      assert ws == init + [ws[|ws| - 1]];
    }
  }

  /** A slot is in the search exactly when it is a window after now on a
      day within range that is not ruled out. */
  lemma {:induction false} SlotsThroughMembers(today: int, ws: seq<int>, now: int, skip: int -> bool, k: nat)
    ensures forall s :: s in SlotsThrough(today, ws, now, skip, k) <==>
      s > now && exists d, w :: 0 <= d < k && w in ws && !skip(today + d) && s == DaySlot(today, d, w)
  {
    if k > 0 {
      SlotsThroughMembers(today, ws, now, skip, k - 1);
      DaySlotsMembers(today + k - 1, ws, now);
      var last := if skip(today + k - 1) then [] else DaySlots(today + k - 1, ws, now);
      forall s | s in last ensures exists w :: w in ws && s == DaySlot(today, k - 1, w) {
        var w :| w in ws && s == SlotAt(today + k - 1, w);
        assert s == DaySlot(today, k - 1, w);
      }
      forall s | s > now && (exists d, w :: 0 <= d < k && w in ws && !skip(today + d) && s == DaySlot(today, d, w))
        ensures s in SlotsThrough(today, ws, now, skip, k)
      {
        var d, w :| 0 <= d < k && w in ws && !skip(today + d) && s == DaySlot(today, d, w);
        if d == k - 1 {
          assert s in last;
        }
      }
    }
  }

  /** Every canonical slot is after now, on a day the skip rule allows, at
      most 365 days ahead, and at one of the windows; there are at most `n`. */
  lemma {:induction false} CanonicalSlotsValid(ws: seq<int>, now: int, skip: int -> bool, n: nat)
    ensures |CanonicalSlots(ws, now, skip, n)| <= n
    ensures forall s :: s in CanonicalSlots(ws, now, skip, n) ==>
      s > now && exists d, w :: 0 <= d <= Horizon && w in ws && !skip(DayOf(now) + d) && s == DaySlot(DayOf(now), d, w)
  {
    var all := SlotsThrough(DayOf(now), ws, now, skip, Horizon + 1);
    SlotsThroughMembers(DayOf(now), ws, now, skip, Horizon + 1);
    forall s | s in CanonicalSlots(ws, now, skip, n) ensures s in all {
      var k :| 0 <= k < |CanonicalSlots(ws, now, skip, n)| && CanonicalSlots(ws, now, skip, n)[k] == s;
      assert all[k] == s;
    }
  }

  predicate StrictlyIncreasing(s: seq<int>) {
    forall i, j :: 0 <= i < j < |s| ==> s[i] < s[j]
  }

  /** Two increasing runs, the first below `mid` and the second from `mid`
      on, join into one. */
  lemma {:induction false} JoinIncreasing(a: seq<int>, b: seq<int>, mid: int)
    requires StrictlyIncreasing(a) && StrictlyIncreasing(b)
    requires forall x :: x in a ==> x < mid
    requires forall y :: y in b ==> mid <= y
    ensures StrictlyIncreasing(a + b)
  {
    forall i, j | 0 <= i < j < |a + b| ensures (a + b)[i] < (a + b)[j] {
      if i < |a| && j >= |a| {
        assert (a + b)[i] in a && (a + b)[j] in b;
      } else if i < |a| {
        assert (a + b)[i] == a[i] && (a + b)[j] == a[j];
      } else {
        assert (a + b)[i] == b[i - |a|] && (a + b)[j] == b[j - |a|];
      }
    }
  }

  lemma {:induction false} DaySlotsIncreasing(day: int, ws: seq<int>, now: int)
    requires StrictlyIncreasing(ws) && ValidWindows(ws)
    ensures StrictlyIncreasing(DaySlots(day, ws, now))
    ensures forall s :: s in DaySlots(day, ws, now) ==> day * Day <= s < day * Day + Day
  {
    DaySlotsMembers(day, ws, now);
    if ws != [] {
      var init := ws[..|ws| - 1];
      var lastW := ws[|ws| - 1];
      DaySlotsIncreasing(day, init, now);
      DaySlotsMembers(day, init, now);
      var a := DaySlots(day, init, now);
      var b := if SlotAt(day, lastW) > now then [SlotAt(day, lastW)] else [];
      forall s | s in a ensures s < SlotAt(day, lastW) {
        var w :| w in init && s == SlotAt(day, w);
        var i :| 0 <= i < |init| && init[i] == w;
        assert ws[i] == w;
      }
      JoinIncreasing(a, b, SlotAt(day, lastW));
      forall s | s in DaySlots(day, ws, now) ensures day * Day <= s < day * Day + Day {
        var w :| w in ws && s == SlotAt(day, w);
        var i :| 0 <= i < |ws| && ws[i] == w;
      }
    }
  }

  /** With strictly increasing windows inside the day, the slot sequence is
      strictly increasing: later days never come before earlier ones. */
  lemma {:induction false} SlotsThroughIncreasing(today: int, ws: seq<int>, now: int, skip: int -> bool, k: nat)
    requires StrictlyIncreasing(ws) && ValidWindows(ws)
    ensures StrictlyIncreasing(SlotsThrough(today, ws, now, skip, k))
  {
    if k > 0 {
      SlotsThroughIncreasing(today, ws, now, skip, k - 1);
      SlotsThroughBelow(today, ws, now, skip, k - 1);
      DaySlotsIncreasing(today + k - 1, ws, now);
      var a := SlotsThrough(today, ws, now, skip, k - 1);
      var b := if skip(today + k - 1) then [] else DaySlots(today + k - 1, ws, now);
      var start := (today + k - 1) * Day;
      assert (today + (k - 1)) * Day == start;
      assert forall x :: x in a ==> x < start;
      assert forall y :: y in b ==> start <= y;
      assert StrictlyIncreasing(b) by {
        if skip(today + k - 1) {
          assert b == [];
        }
      }
      JoinIncreasing(a, b, start);
      assert SlotsThrough(today, ws, now, skip, k) == a + b;
    }
  }

  /** Every slot of the first `k` days lies before day `k` starts. */
  lemma {:induction false} SlotsThroughBelow(today: int, ws: seq<int>, now: int, skip: int -> bool, k: nat)
    requires StrictlyIncreasing(ws) && ValidWindows(ws)
    ensures forall s :: s in SlotsThrough(today, ws, now, skip, k) ==> s < (today + k) * Day
  {
    if k > 0 {
      SlotsThroughBelow(today, ws, now, skip, k - 1);
      DaySlotsIncreasing(today + k - 1, ws, now);
      var a := SlotsThrough(today, ws, now, skip, k - 1);
      var b := if skip(today + k - 1) then [] else DaySlots(today + k - 1, ws, now);
      var start := (today + k - 1) * Day;
      assert start + Day == (today + k) * Day;
      assert SlotsThrough(today, ws, now, skip, k) == a + b;
      forall s | s in a + b ensures s < start + Day {
        if s in a {
          assert s < start;
        } else {
          assert !skip(today + k - 1) && s in DaySlots(today + k - 1, ws, now);
        }
      }
    }
  }

  lemma {:induction false} CanonicalSlotsIncreasing(ws: seq<int>, now: int, skip: int -> bool, n: nat)
    requires StrictlyIncreasing(ws) && ValidWindows(ws)
    ensures StrictlyIncreasing(CanonicalSlots(ws, now, skip, n))
  {
    SlotsThroughIncreasing(DayOf(now), ws, now, skip, Horizon + 1);
  }

  // ---------------------------------------------------------------------
  // check_empty_windows
  // ---------------------------------------------------------------------

  /** The (date, minute) keys of the scheduled posts. */
  function KeysOf(times: seq<int>): set<(int, int)>
  {
    set t | t in times :: (DayOf(t), MinuteOf(t))
  }

  predicate InNextDay(slot: int, now: int) {
    now < slot <= now + Day
  }

  /** Index of the first window of `day` at or after `k` that lies within the
      next 24 hours and has no scheduled post at that date and minute. */
  function FirstEmptyOn(day: int, ws: seq<int>, now: int, keys: set<(int, int)>, k: nat): (r: Option<nat>)
    requires k <= |ws|
    ensures r.Some? ==> k <= r.value < |ws| && InNextDay(SlotAt(day, ws[r.value]), now) && (day, ws[r.value]) !in keys
    ensures r.Some? ==> forall j :: k <= j < r.value && InNextDay(SlotAt(day, ws[j]), now) ==> (day, ws[j]) in keys
    ensures r.None? ==> forall j :: k <= j < |ws| && InNextDay(SlotAt(day, ws[j]), now) ==> (day, ws[j]) in keys
    decreases |ws| - k
  {
    if k == |ws| then None
    else if InNextDay(SlotAt(day, ws[k]), now) && (day, ws[k]) !in keys then Some(k)
    else FirstEmptyOn(day, ws, now, keys, k + 1)
  }

  /** The first empty window today or tomorrow within the next 24 hours. */
  function FirstEmptyWindow(ws: seq<int>, now: int, times: seq<int>): Option<int>
  {
    var today := DayOf(now);
    match FirstEmptyOn(today, ws, now, KeysOf(times), 0)
    case Some(i) => Some(SlotAt(today, ws[i]))
    case None =>
      match FirstEmptyOn(today + 1, ws, now, KeysOf(times), 0)
      case Some(i) => Some(SlotAt(today + 1, ws[i]))
      case None => None
  }

  /** What `check_empty_windows` finds is a window within the next 24 hours
      with no post at that date and minute; when it finds nothing, every
      window of today and tomorrow within the next 24 hours has one. */
  lemma {:induction false} EmptyWindowSound(ws: seq<int>, now: int, times: seq<int>)
    ensures FirstEmptyWindow(ws, now, times).Some? ==>
      var w := FirstEmptyWindow(ws, now, times).value;
      && InNextDay(w, now)
      && exists d, i :: (&& 0 <= d <= 1 && 0 <= i < |ws| && w == DaySlot(DayOf(now), d, ws[i])
                         && forall t :: t in times ==> (DayOf(t), MinuteOf(t)) != (DayOf(now) + d, ws[i]))
    ensures FirstEmptyWindow(ws, now, times).None? ==>
      forall d, i :: 0 <= d <= 1 && 0 <= i < |ws| && InNextDay(DaySlot(DayOf(now), d, ws[i]), now) ==>
        exists t :: t in times && (DayOf(t), MinuteOf(t)) == (DayOf(now) + d, ws[i])
  {
    var keys := KeysOf(times);
    var today := DayOf(now);
    var r0 := FirstEmptyOn(today, ws, now, keys, 0);
    var r1 := FirstEmptyOn(today + 1, ws, now, keys, 0);
    if r0.Some? {
      var i := r0.value;
      assert DaySlot(today, 0, ws[i]) == SlotAt(today, ws[i]);
      forall t | t in times ensures (DayOf(t), MinuteOf(t)) != (today + 0, ws[i]) {
        assert (DayOf(t), MinuteOf(t)) in keys;
      }
    } else if r1.Some? {
      var i := r1.value;
      assert DaySlot(today, 1, ws[i]) == SlotAt(today + 1, ws[i]);
      forall t | t in times ensures (DayOf(t), MinuteOf(t)) != (today + 1, ws[i]) {
        assert (DayOf(t), MinuteOf(t)) in keys;
      }
    } else {
      forall d, i | 0 <= d <= 1 && 0 <= i < |ws| && InNextDay(DaySlot(today, d, ws[i]), now)
        ensures exists t :: t in times && (DayOf(t), MinuteOf(t)) == (today + d, ws[i])
      {
        assert (today + d, ws[i]) in keys;
      }
    }
  }

  /** `check_empty_windows`: collects the (date, minute) keys of the
      scheduled posts, then walks today's and tomorrow's windows. Without a
      scheduler it returns None. */
  method CheckEmptyWindows(hasScheduler: bool, ws: seq<int>, now: int, times: seq<int>) returns (r: Option<int>)
    ensures !hasScheduler ==> r.None?
    ensures hasScheduler ==> r == FirstEmptyWindow(ws, now, times)
  {
    if !hasScheduler {
      return None;
    }
    var keys: set<(int, int)> := {};
    for k := 0 to |times|
      invariant keys == KeysOf(times[..k])
    {
      assert times[..k + 1] == times[..k] + [times[k]];
      keys := keys + {(DayOf(times[k]), MinuteOf(times[k]))};
    }
    assert times[..|times|] == times;
    var today := DayOf(now);
    for d := 0 to 2
      invariant d >= 1 ==> FirstEmptyOn(today, ws, now, keys, 0).None?
      invariant d >= 2 ==> FirstEmptyOn(today + 1, ws, now, keys, 0).None?
    {
      var day := today + d;
      for i := 0 to |ws|
        invariant FirstEmptyOn(day, ws, now, keys, 0) == FirstEmptyOn(day, ws, now, keys, i)
      {
        var slot := SlotAt(day, ws[i]);
        if now < slot <= now + Day && (day, ws[i]) !in keys {
          return Some(slot);
        }
      }
    }
    return None;
  }

  // ---------------------------------------------------------------------
  // get_scheduled_summary
  // ---------------------------------------------------------------------

  /** `text[:50] + '...' if len(text) > 50 else text`. */
  function Preview(text: string): (p: string)
    ensures |text| <= 50 ==> p == text
    ensures |text| > 50 ==> |p| == 53 && p[..50] == text[..50] && p[50..] == "..."
  {
    if |text| > 50 then text[..50] + "..." else text
  }

  datatype SummaryItem = SummaryItem(id: nat, hour: int, minute: int, preview: string)

  datatype ScheduledPost = ScheduledPost(id: nat, time: int, text: string)

  function ItemOf(p: ScheduledPost): (int, SummaryItem)
  {
    (DayOf(p.time), SummaryItem(p.id, (p.time % Day) / 3600, (p.time % Day) % 3600 / 60, Preview(p.text)))
  }

  function ItemsOf(posts: seq<ScheduledPost>): (items: seq<(int, SummaryItem)>)
    ensures |items| == |posts| && forall i :: 0 <= i < |posts| ==> items[i] == ItemOf(posts[i])
  {
    if posts == [] then [] else [ItemOf(posts[0])] + ItemsOf(posts[1..])
  }

  /** `get_scheduled_summary`: the posts grouped by date in first-seen date
      order; each date holds the items of exactly its posts, in order. */
  method GetScheduledSummary(posts: seq<ScheduledPost>) returns (summary: seq<(int, seq<SummaryItem>)>)
    ensures |summary| == |FirstSeenKeys(ItemsOf(posts))|
    ensures forall j :: 0 <= j < |summary| ==> summary[j].0 == FirstSeenKeys(ItemsOf(posts))[j]
    ensures forall j :: 0 <= j < |summary| ==> summary[j].1 == ValuesOf(ItemsOf(posts), summary[j].0)
  {
    summary := GroupByKey(ItemsOf(posts));
  }
}
