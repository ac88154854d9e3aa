# Confession-page post numbering and scheduling, modelled in Dafny

This project models the core of a content-approval system for an anonymous
"confessions" page. Visitors submit texts through a Google Sheet. A moderator
approves or denies them. Approved posts get a running number ("#15262 text")
and are scheduled on the page at configured posting windows. A
comment-moderation side scans the comments of recent posts and hides the ones
a classifier flags.

The model covers:

- **The entry store** (`database.py`): entries with their status, post number,
  external reference and scheduled time, the post-number counter and the set
  of sheet timestamps already imported. Modelled as the class
  `EntryStore.Store`.
- **The post-number prefix** (`app.py`, `comments_scanner.py`): how "#n text"
  is rendered, decoded strictly (`message.split()[0][1:]`), decoded loosely
  (the regex `#(\d+)`) and stripped on edit (module `PostPrefix`).
- **The external schedule** that the page handler updates and deletes in
  (class `ExternalScheduler.Schedule`).
- **The posting windows and slots** (`scheduler.py`, `background_jobs.py`,
  module `Slots`):
  - window parsing and defaults;
  - the next available slot;
  - the canonical slots of the hole-filling step;
  - the empty-window check;
  - the scheduled summary;
  - the publishing loop.
- **The scheduled page** (`app.py` `scheduled_page`), whose four phases each
  visit runs against the external schedule:
  - orphan deletion;
  - compaction of the numbers;
  - sync of local entries by number;
  - hole-filling.

  The phases are specified as functions in `ReconcileSpec` and carried out by
  methods in `Reconcile`.
- **The routes that renumber** (`app.py`): unschedule with its left-shift
  cascade, swap with a neighbour, edit of a scheduled text, and the text
  handed to the scheduler on approval. They are specified in `CascadeSpec`
  and carried out in `Cascade`.
- **The background jobs** (`background_jobs.py`): the sheet sync with its
  threshold alert, and the empty-window notification (module
  `BackgroundJobs`).
- **The comment side**, in four modules:
  - the hidden-comments table (`comments_db.py`, class
    `CommentsDb.CommentsDatabase`);
  - the batch classifier's reply handling (`ai_comment_filter.py`, module
    `AiCommentFilter`);
  - the hourly scanner with its retry queue (`comments_scanner.py`, module
    `CommentsScanning`);
  - the page-wide scanner (`comment_scanner.py`, module `CommentScanning`).

**Conventions of the model.**

- Times are integer seconds in the page's local zone. A day is 86400 seconds,
  and a posting window is a second of the day.
- Python truthiness is spelled out where the code relies on it:
  - a post number 0 counts as "no number";
  - an empty external reference counts as none;
  - a classifier verdict is truthy or not.
- The store's tables are a `map` from id to entry. `get_scheduled_entries`
  returns the scheduled rows ordered by time, NULL first, with ties in id
  order.

**External systems are parameters.** Anything outside the process becomes a
parameter of the operation that uses it:

| outside the process | how the model takes it |
|---|---|
| the page's API | a listing of posts, plus the set of references whose update or delete the page refuses |
| the sheet | the fetched rows |
| the classifier | a function from a batch to a reply |
| the clock | `now` |
| the configuration file | an `Option` of its settings |

Exceptions that the code catches become explicit outcomes.

**Where the model departs from the code.** The code as written fails, or
calls what no file defines, at these points. The model says what it takes in
their place:

- `get_scheduled_entries` (`database.py:178-193`) does not select
  `post_number`. As written, `app.py:705-707` raise `KeyError` on it, and
  `app.py:331` and `app.py:457` see None. The model gives the rows their
  stored number.
- `publish_due_posts` calls `mark_as_published(id, remote_id)`
  (`scheduler.py:117`), but `database.py:195` takes one argument, so the
  call always raises `TypeError`. The model treats marking as a parameter
  that may fail; a failure is caught and reported as an unsuccessful result.
- `database.py` defines no `get_scheduled_posts` and no `schedule_post`,
  although `scheduler.py:49`, `scheduler.py:92`, `scheduler.py:138` and
  `background_jobs.py:71` call them. As written, `get_next_available_slot`,
  `schedule_post`, `get_scheduled_summary` and `check_empty_windows` raise
  `AttributeError`. The `taken`, `times` and `posts` parameters of
  `Slots.NextAvailableSlot`, `Slots.SchedulePost`, `Slots.GetScheduledSummary` and
  `Slots.CheckEmptyWindows` stand for what those calls would return.
- The hourly scanner calls `add_comment`, `queue_comment`,
  `remove_from_queue` and `get_queued_comments`, which none of the modelled
  files defines. `CommentsScanning.ScanStore` assumes an insert-if-absent
  that reports whether the row is new, and a retry queue keyed by comment id.
- The counter after orphan deletion and the hide rule of the hourly scanner
  are modelled as written: the counter is only lowered by the number of
  orphans (`app.py:356`), and a flagged comment is hidden only when it was
  newly added (`comments_scanner.py:441`). Both are listed under
  "## Findings", where corrected definitions are proved separately.
- In `swap_posts` the two external rewrites are not guarded separately
  (`app.py:1054-1075`). A refused first rewrite raises before the second is
  attempted, after both database rows were already exchanged. The model does
  the same.

## Model

| member | source | states |
|---|---|---|
| Collections.SortPermutes | app.py:375 | sorting (by time, by number, by timestamp) neither loses nor duplicates an element |
| Collections.SortSorted | app.py:375 | the sort orders its output by the given key |
| Collections.SortOfSorted | app.py:437 | sorting a listing that is already in order returns it unchanged, as Python's stable `sorted` does |
| Collections.SortMembers | app.py:375 | sorting keeps exactly the elements of the input |
| Collections.TextLeTotal | database.py:109 | SQLite's text order compares any two texts |
| Collections.TextLeTransitive | database.py:109 | SQLite's text order is transitive |
| Collections.TextLeAntisymmetric | comments_db.py:89 | two texts each ordered before the other are equal |
| Collections.ValuesOfMember | scheduler.py:138-154 | a value is listed under a key exactly when the input pairs it with that key |
| Collections.ValuesOfSorted | comments_db.py:96-110 | appending to a dict's lists in input order keeps each list in the input's order |
| Collections.FirstSeenKeysSorted | comments_db.py:96-121 | a dict filled in input order lists its keys in the input's key order |
| Collections.GroupByKey | scheduler.py:138-154 | a dict filled in iteration order and listed by value: one group per key in first-seen order, each holding exactly that key's values in order |
| Collections.Split | app.py:87 | `str.split(sep)` has one more piece than there are separators, and no piece contains the separator |
| Collections.SplitJoin | app.py:87 | joining the pieces of a split with the separator gives back the text |
| Textarea.WrappedAtLeastLines | app.py:86-95 | the wrapped row count is never below the line count |
| Textarea.HeightUsesWrappedRows | app.py:95-100 | for a non-empty text the height is 21 px per wrapped row plus 15, clamped to 80..400 |
| Textarea.CalculateTextareaHeight | app.py:76-100 | the loop computes the specified height, which always lies in 80..400, and an empty text gets 80 |
| PostPrefix.IntToString | app.py:194 | `str(n)` is never empty |
| PostPrefix.IntRoundTrip | app.py:319-321 | `int(str(n)) == n` for every integer, negative ones included |
| PostPrefix.IntToStringPlain | app.py:194 | a printed number holds no white space and no '#', so it is the whole first token of the rendered post |
| PostPrefix.TrimStart | app.py:320 | `int()` skips leading white space: the result is a suffix that starts with a non-space |
| PostPrefix.TrimEnd | app.py:320 | `int()` skips trailing white space: the result is a prefix that ends with a non-space |
| PostPrefix.FirstToken | app.py:319 | `message.split()[0]` is the longest space-free prefix |
| PostPrefix.AfterFirstSpace | app.py:410 | `message.split(' ', 1)[1] if ' ' in message else message` is never longer than the message |
| PostPrefix.AfterFirstSpaceSkips | app.py:410 | after a space-free prefix and one space, the rest is exactly the text |
| PostPrefix.FirstTokenStops | app.py:319 | the first token of `p + " " + t` is `p` when `p` holds no white space |
| PostPrefix.RenderRoundTrip | app.py:194 | decoding `f"#{n} {text}"` with the page's strict decoder gives back `n` and `text`, for every integer and text |
| PostPrefix.RenumberKeepsText | app.py:401-418 | re-rendering a decoded message under another number keeps its text |
| PostPrefix.StripRendered | app.py:870-876 | the edit strip of a rendered text, number or "None", is the bare text |
| PostPrefix.StripPlain | app.py:872 | a text not starting with '#' is stored as submitted |
| PostPrefix.LeadingDigits | comments_scanner.py:175 | `\d+` takes the longest run of digits at the start |
| PostPrefix.ExtractNone | comments_scanner.py:172-178 | the loose decoder returns None exactly when no '#' is followed by a digit |
| PostPrefix.ExtractRendered | comments_scanner.py:172-178 | the loose decoder reads back every non-negative rendered number |
| PostPrefix.ExtractRenderedNegative | comments_scanner.py:172-178 | a negative rendered number is not read back: the decoder reports what the text itself carries |
| PostPrefix.ExtractSkips | comments_scanner.py:172-178 | a prefix with no '#' followed by a digit is skipped by the loose decoder |
| EntryStore.TimestampOrder | database.py:109 | `ORDER BY timestamp` is a total preorder |
| EntryStore.TimeOrder | database.py:187 | `ORDER BY scheduled_time`, NULL first, is a total preorder |
| EntryStore.PendingRows | database.py:100-115 | the pending query returns exactly the pending entries, ordered by submission timestamp |
| EntryStore.ScheduledRows | database.py:178-193 | the scheduled query returns exactly the scheduled entries, ordered by time with NULL first, each once |
| EntryStore.InitialCounter | database.py:46-51 | `INSERT OR IGNORE` starts a new counter at 1 and keeps an existing one |
| EntryStore.ReopenKeepsCounter | database.py:46-51 | opening the store again never resets the counter |
| EntryStore.Store.Open | database.py:22-51 | the opened store holds the persisted entries and timestamps and the initial counter |
| EntryStore.Store.AddEntry | database.py:64-98 | a timestamp seen before is refused with nothing changed; otherwise one pending entry is inserted under a fresh id and the timestamp recorded |
| EntryStore.Store.GetPendingEntries | database.py:100-115 | exactly the pending entries, in timestamp order |
| EntryStore.Store.GetScheduledEntries | database.py:178-193 | exactly the scheduled entries, in time order, ids distinct |
| EntryStore.Store.ApproveEntry | database.py:117-132 | the entry becomes approved with the edited text, approver and time; an unknown id changes nothing |
| EntryStore.Store.ScheduleToFacebook | database.py:134-155 | the entry becomes scheduled with its reference and time; nothing else changes |
| EntryStore.Store.UnscheduleEntry | database.py:157-176 | the entry returns to pending with reference and time cleared and its number kept |
| EntryStore.Store.MarkAsPublished | database.py:195-207 | only the entry's status changes, to published |
| EntryStore.Store.DenyEntry | database.py:209-222 | the entry becomes denied, the denier recorded in the approver column |
| EntryStore.Store.GetNextPostNumber | database.py:224-237 | returns the counter and advances it by one |
| EntryStore.Store.GetCurrentPostNumber | database.py:239-248 | returns the counter |
| EntryStore.Store.ResetPostNumber | database.py:250-258 | sets the counter to the given number, 1 by default |
| EntryStore.Store.GetStatistics | database.py:260-272 | one count per status, each the number of entries with that status |
| EntryStore.Store.DeleteEntry | app.py:353 | removes exactly the entry with that id |
| EntryStore.Store.LowerCounter | app.py:356 | lowers the counter by the given amount |
| EntryStore.Store.ReleaseEntry | app.py:729-736 | the route's own unschedule: pending, with number, reference and time cleared |
| EntryStore.Store.SetNumberAndTime | app.py:789-793 | changes only that entry's number and time |
| EntryStore.Store.SetExternal | app.py:469-481 | changes only that entry's reference, time and text |
| EntryStore.Store.SetText | app.py:883 | changes only that entry's text |
| EntryStore.Store.SetTimeByNumber | app.py:596-604 | retimes every entry carrying the number, whatever its status, and no other |
| EntryStore.Store.InsertScheduled | app.py:483-502 | inserts one scheduled entry under a fresh id with the post's number, reference, time and text |
| EntryStore.RetimeNumber | app.py:596-604 | the table after retiming a number: same ids, entries with the number get the time, others unchanged |
| EntryStore.StatisticsCoverTable | database.py:260-272 | the five status counts add up to the number of entries |
| ExternalScheduler.Updated | app.py:420-423 | an update rewrites the message, and the time when one is given, of exactly the post with that reference |
| ExternalScheduler.Removed | app.py:718 | a delete removes exactly the post with that reference |
| ExternalScheduler.ByTime | app.py:375 | the listing sorted by scheduled time is a permutation of it |
| ExternalScheduler.ByTimeKeepsUnique | app.py:375 | sorting keeps references distinct |
| ExternalScheduler.UpdatedKeepsRefs | app.py:420-423 | updates keep the set of references and their distinctness |
| ExternalScheduler.RemovedKeepsUnique | app.py:718 | deleting keeps references distinct |
| ExternalScheduler.Schedule.constructor | app.py:301 | the schedule holds the listing and the references the page refuses |
| ExternalScheduler.Schedule.UpdatePost | app.py:420-423 | succeeds exactly for a listed, accepted reference, and then applies the update; otherwise nothing changes |
| ExternalScheduler.Schedule.DeletePost | app.py:718 | succeeds exactly for a listed, accepted reference, and then removes that post; otherwise nothing changes |
| Slots.WindowSeconds | scheduler.py:31-32 | `time(h, m)` is a whole minute inside the day |
| Slots.ParseWindow | scheduler.py:31-32 | a parsed window is a whole minute inside the day; malformed fields or out-of-range hours and minutes do not parse |
| Slots.ParseEach | scheduler.py:30-33 | the list parses exactly when every window parses, in order; otherwise the error names a window that does not parse |
| Slots.LoadedWindowsSorted | scheduler.py:20-36 | a configured list loads exactly when every window parses, and is then sorted, inside the day and a permutation of the parsed windows |
| Slots.ParseTwoDigitWindow | scheduler.py:31-32 | "HH:MM" with two-digit fields parses to its second of the day |
| Slots.DefaultWindowsAgree | scheduler.py:27-36 | with no file, or no `posting_windows` key, the windows are 09:00, 14:00 and 19:00 |
| Slots.FirstFree | scheduler.py:52-59 | the first window of a day that is after now and not taken, with every earlier one not free |
| Slots.LaterDays | scheduler.py:61-73 | the first untaken window of days 1..365 in order; None only when every one is taken |
| Slots.NextSlotFreeOrFallback | scheduler.py:38-78 | the slot is untaken and in the future, or, when all of today's and the next 365 days' windows are taken, tomorrow's first window; only an empty window list has no slot |
| Slots.NextSlotPrefersToday | scheduler.py:52-59 | a free window later today is always chosen, the earliest such |
| Slots.SchedulePostUsesFreeSlot | scheduler.py:80-94 | the request keeps entry and text and uses a free future slot, or the fallback |
| Slots.PublishDuePosts | scheduler.py:96-134 | without a handler nothing; otherwise one result per due post, in order, successful exactly when publishing and marking both succeed |
| Slots.ValidSlots | app.py:545-563 | the loop's slots equal the canonical slots |
| Slots.DayInto | app.py:550-556 | one day's windows after now are appended until enough slots are found |
| Slots.SlotsThroughMembers | app.py:545-563 | a slot is searched exactly when it is a window after now on a day in range that is not ruled out |
| Slots.CanonicalSlotsValid | app.py:545-563 | at most the requested count, each after now, on an allowed day at most 365 days ahead, at a window |
| Slots.CanonicalSlotsIncreasing | app.py:545-563 | with increasing windows the slots are strictly increasing |
| Slots.FirstEmptyOn | background_jobs.py:82-91 | the first window of a day inside the next 24 hours with no post at that date and minute |
| Slots.EmptyWindowSound | background_jobs.py:58-93 | a window found is within 24 hours and unoccupied; when none is found, every window within 24 hours is occupied |
| Slots.CheckEmptyWindows | background_jobs.py:58-93 | without a scheduler None; otherwise the specified first empty window |
| Slots.Preview | scheduler.py:151 | texts up to 50 characters are kept; longer ones are cut to 50 and get "..." |
| Slots.ItemsOf | scheduler.py:140-152 | one summary item per post, in order |
| Slots.GetScheduledSummary | scheduler.py:136-154 | posts grouped by date in first-seen order, each date holding exactly its posts' items in order |
| ReconcileSpec.NumbersOfMembers | app.py:315-324 | the numbers collected are exactly those that the posts' messages decode to |
| ReconcileSpec.LowestNumber | app.py:385-397 | the least number carried, None exactly when no post carries one |
| ReconcileSpec.RewriteRenumbers | app.py:401-418 | a post is rewritten exactly when it carries a number other than the expected one; the rewrite carries the expected number and the same text |
| ReconcileSpec.Rewrites | app.py:401-418 | the post at place `i` of the time order should carry `lowest + i` |
| ReconcileSpec.RenumberStep | app.py:419-427 | one rewrite changes only the message of that post, and only if the page accepts it |
| ReconcileSpec.RenumberedAt | app.py:401-429 | after `k` steps a post carries its own rewrite exactly when its place is below `k` and the page accepted it |
| ReconcileSpec.CompactionNumbersConsecutively | app.py:377-437 | after compaction the post at place `i` of the time order carries `lowest + i` with its text kept, unless it had no number or the page refused |
| ReconcileSpec.CompactedListing | app.py:377-437 | compaction is the renumbering of the time order from its lowest number |
| ReconcileSpec.NumbersPermuted | app.py:375 | a reordered listing carries the same numbers |
| ReconcileSpec.FindNumber | app.py:446-450 | the first snapshot row with the number, or None when no row has it |
| ReconcileSpec.SyncPostFrame | app.py:439-502 | syncing one post keeps the snapshot consistent, drops no entry, never changes a status or number, and touches only entries with the post's number |
| ReconcileSpec.SyncPostCovers | app.py:446-502 | after syncing a numbered post, a scheduled entry has its number and reference |
| ReconcileSpec.SyncAllFrame | app.py:439-502 | the sync loop keeps the snapshot consistent and entries outside it untouched |
| ReconcileSpec.SyncAllCovers | app.py:439-502 | with distinct numbers, every numbered post synced has a scheduled entry with its number and reference |
| ReconcileSpec.SyncAllFresh | app.py:483-502 | entries the sync creates are scheduled and take fresh ids |
| ReconcileSpec.Relocations | app.py:569-596 | `zip` pairs the place-`i` post with slot `i`; only numbered posts more than 60 seconds off their slot move |
| ReconcileSpec.MoveStep | app.py:606-612 | one external move changes only the time of that post, when the page accepts it |
| ReconcileSpec.MovedAt | app.py:569-612 | after `k` moves a post keeps its reference and message, and has its slot exactly when it was moved and accepted |
| ReconcileSpec.FillHolesPlaces | app.py:527-620 | every accepted numbered post ends within 60 seconds of the slot of its place in time order; references and messages are kept |
| ReconcileSpec.RetimedOnlyTimes | app.py:596-604 | local moves change only times, and only to the slot of a move of the entry's number |
| ReconcileSpec.RetimedPlaces | app.py:596-604 | with distinct numbers, every entry carrying a moved number ends at that move's slot |
| ReconcileSpec.AsWrittenCounter | app.py:356 | the counter is lowered by the number of deleted orphans |
| ReconcileSpec.AsWrittenCounterRepeatsLiveNumber | app.py:328-437 | counterexample: after one orphan is deleted from #n, #n+1, #n+2, the counter is lowered to n+2, a number still live on the listing |
| ReconcileSpec.CompactPair | app.py:401-418 | two posts already numbered consecutively in time order are left alone |
| ReconcileSpec.CompactedCounterIsFresh | app.py:328-437 | with the corrected counter, every number on the compacted listing is below the counter, so the next number handed out is fresh |
| ReconcileSpec.CompactedNumberInRange | app.py:401-429 | a number on the compacted listing lies in `lowest .. lowest + |posts| - 1` |
| ReconcileSpec.InitialSyncConsistent | app.py:363 | the sync phase starts from a snapshot consistent with the table |
| ReconcileSpec.PassDeletesExactlyOrphans | app.py:328-620 | a visit removes exactly the orphans; every entry it creates is scheduled with a fresh id |
| ReconcileSpec.PassSyncsListing | app.py:439-502 | after a visit, every numbered post of the synced listing has a scheduled entry with its number and reference |
| Reconcile.CollectNumbers | app.py:315-324 | the numbers collected are the specified set |
| Reconcile.RemoveOrphans | app.py:328-363 | deletes exactly the orphans and lowers the counter by their count |
| Reconcile.DeleteOrphanRows | app.py:350-353 | the deletion loop over the snapshot deletes the orphan rows it walks |
| Reconcile.OrphanRowIdsAreOrphans | app.py:330-333 | walking the scheduled rows finds exactly the orphans of the table |
| Reconcile.LowestOf | app.py:385-397 | the loop finds the lowest number |
| Reconcile.CompactListing | app.py:377-437 | renumbers the listing as specified and leaves the counter where the orphan phase put it |
| Reconcile.RenumberAll | app.py:401-429 | the compaction loop is the specified renumbering |
| Reconcile.FindByNumber | app.py:446-450 | the loop finds the specified row |
| Reconcile.SyncListing | app.py:439-502 | the sync loop is the specified sync of the time-ordered listing |
| Reconcile.FillScheduleHoles | app.py:527-620 | the hole-filling step is the specified relocation of table and listing |
| Reconcile.MoveAll | app.py:569-612 | the move loop is the specified retiming of table and listing |
| Reconcile.ScheduledPage | app.py:283-620 | a visit is the specified pass, and it reports whether any orphan was deleted |
| CascadeSpec.FindRow | app.py:698 | the first row with the id, or None when no row has it |
| CascadeSpec.SetNumberTime | app.py:789-793 | only that entry's number and time change |
| CascadeSpec.ByNumber | app.py:946 | the sort by number is an ordered permutation that keeps ids distinct |
| CascadeSpec.Following | app.py:741-742 | exactly the rows numbered above `k`, in number order |
| CascadeSpec.ShiftedTexts | app.py:777 | each shifted post is rendered with its number minus one |
| CascadeSpec.CascadeKeepsIds | app.py:753-799 | the cascade keeps the table's ids |
| CascadeSpec.CascadeKeepsRefs | app.py:753-799 | the cascade keeps the listing's references |
| CascadeSpec.CascadeAt | app.py:753-799 | after `k` successful shifts, row `j` has number minus one and the time before it if `j < k`, and is untouched otherwise |
| CascadeSpec.CascadeFrame | app.py:753-799 | rows that are not shifted keep their entry |
| CascadeSpec.UnscheduleRotatesLeft | app.py:685-827 | with every shift succeeding, the entry is released, each following entry takes number minus one and the previous one's time, and the counter drops by one |
| CascadeSpec.UnscheduleFrame | app.py:685-827 | no entry other than the unscheduled one and those numbered above it changes |
| CascadeSpec.UnscheduleCases | app.py:685-827 | the three outcomes: not found with nothing changed; a missing number raising after the release; the full cascade with the counter lowered |
| CascadeSpec.UnscheduleUnknown | app.py:698-703 | an id that is not a scheduled entry changes nothing |
| CascadeSpec.Neighbour | app.py:959-968 | the target of a swap is the adjacent place, and only inside the list |
| CascadeSpec.SwapAtBoundary | app.py:959-968 | up from the first place, down from the last or any other direction changes nothing |
| CascadeSpec.SwapExchanges | app.py:923-1093 | a swap exchanges number and time of the entry and its neighbour in number order, with no number between theirs; nothing else changes |
| CascadeSpec.EditSyncsText | app.py:829-921 | the stored text is the submitted text without its prefix, and the external post strips back to it and decodes to the entry's number |
| CascadeSpec.EditOfRenderedText | app.py:870-883 | submitting the text as shown, prefix included, stores the bare text, so the prefix is never doubled |
| CascadeSpec.ApprovedTextDecodes | app.py:186-194 | the approved text strips back to the edited text and decodes to the entry's number, or to 1 when the row is missing |
| Cascade.UnscheduleEntry | app.py:685-827 | the route's effect is the specified unschedule |
| Cascade.UnscheduleFound | app.py:707-808 | a found entry is released, then either stopped by a missing number or cascaded with the counter lowered |
| Cascade.ShiftAll | app.py:753-799 | the cascade loop is the specified cascade |
| Cascade.SwapPosts | app.py:923-1093 | the route's effect is the specified swap |
| Cascade.ExchangeRows | app.py:1024-1075 | both rows take each other's number and time, then both external posts are rewritten |
| Cascade.SwapExternalCalls | app.py:1054-1075 | the two external rewrites, a refused first one skipping the second |
| Cascade.EditScheduledPost | app.py:829-921 | the route's effect is the specified edit |
| Cascade.ApproveRoute | app.py:178-212 | the entry is approved by "admin", and the text handed on is the specified approved text |
| BackgroundJobs.AddedCountIsNewTimestamps | background_jobs.py:105-109 | the number added is the number of distinct timestamps in the batch not seen before |
| BackgroundJobs.PendingCountGrows | database.py:64-98 | adding a pending entry under a fresh id raises the pending count by one |
| BackgroundJobs.SyncEntries | background_jobs.py:104-109 | every submission is offered; the count is the specified number added, and pending grows by it |
| BackgroundJobs.ThresholdDefaults | background_jobs.py:125-129 | with no threshold, the alert fires from the 21st pending entry, and never while notifications are off or unset |
| BackgroundJobs.SyncGoogleSheets | background_jobs.py:95-136 | no handler does nothing; a failed fetch adds nothing; otherwise the new timestamps are added, and the alert is sent exactly when the threshold is exceeded, carrying the pending count and the next empty window |
| BackgroundJobs.CheckNotifications | background_jobs.py:138-158 | an alert exactly when notifications are on and an empty window exists, carrying that window and the pending count |
| BackgroundJobs.EmptyWindowAlertIsEmpty | background_jobs.py:58-93 | the alerted window is within the next 24 hours and no scheduled post sits at its date and minute |
| CommentsDb.Lookup | comments_db.py:169-181 | the row with the id, or None when no row has it |
| CommentsDb.LookupFinds | comments_db.py:20-38 | with the primary key, every row is the one looked up by its id |
| CommentsDb.UpsertLookup | comments_db.py:58-68 | `INSERT OR REPLACE` keeps ids unique, stores the new row, and leaves every other id's row unchanged |
| CommentsDb.MarkAllLookup | comments_db.py:132-139 | the status update changes `id`'s row and no other |
| CommentsDb.CommentsDatabase.Open | comments_db.py:15-46 | the table holds the rows already stored |
| CommentsDb.CommentsDatabase.AddHiddenComment | comments_db.py:48-76 | the row for the id is replaced by a hidden one; other ids are unchanged |
| CommentsDb.CommentsDatabase.UnhideComment | comments_db.py:123-144 | reports whether a row matched; the row becomes unhidden and no other changes |
| CommentsDb.CommentsDatabase.DeleteComment | comments_db.py:146-167 | reports whether a row matched; the row becomes deleted and no other changes |
| CommentsDb.CommentsDatabase.IsCommentAlreadyHidden | comments_db.py:169-181 | true exactly when the id's row exists with status hidden |
| CommentsDb.CommentsDatabase.GetAllHiddenComments | comments_db.py:78-121 | non-empty groups under distinct post ids, each holding exactly its post's hidden rows, and a group for every post with a hidden row; groups in ascending post id, rows inside a group from the latest `hidden_at`, and each group's message that of its first row |
| CommentsDb.PostThenNewestPreorder | comments_db.py:89 | `ORDER BY post_id, hidden_at DESC` is a total preorder |
| CommentsDb.GroupingFacts | comments_db.py:96-121 | grouping the selected rows gives non-empty groups under distinct post ids, each holding exactly its post's hidden rows |
| CommentsDb.GroupingOrder | comments_db.py:89-121 | the groups come in ascending post id, and inside a group the most recently hidden row comes first |
| CommentsDb.NewestFirst | comments_db.py:89-110 | appending in query order keeps one post's rows in descending `hidden_at` |
| CommentsDb.CommentsDatabase.GetStatistics | comments_db.py:183-212 | the three status counts add up to the rows; the categories are exactly those of hidden rows, each counted between 1 and the hidden total |
| CommentsDb.StatusesPartition | comments_db.py:191-199 | every row has exactly one of the three statuses |
| AiCommentFilter.IndexFrom | ai_comment_filter.py:223-226 | the first occurrence of the pattern at or after a position |
| AiCommentFilter.Before | ai_comment_filter.py:224-226 | `s.split(pat)[0]` is a prefix of `s` |
| AiCommentFilter.StripKeepsMiddle | ai_comment_filter.py:224-226 | `strip()` keeps a contiguous middle of the text and drops only white space before and after it |
| AiCommentFilter.StripEdges | ai_comment_filter.py:224-226 | what `strip()` keeps neither starts nor ends with white space |
| AiCommentFilter.FenceAfterPlainText | ai_comment_filter.py:223-226 | the first fence of `a` + "```" + `b` sits right after `a` |
| AiCommentFilter.JsonFenceExtracted | ai_comment_filter.py:223-224 | a reply fenced as ```json yields the stripped text inside the fence |
| AiCommentFilter.PlainFenceExtracted | ai_comment_filter.py:225-226 | a reply fenced with plain ``` yields the stripped text between the fences |
| AiCommentFilter.UnfencedUnchanged | ai_comment_filter.py:221-228 | a reply without a fence is decoded as it stands |
| AiCommentFilter.FirstList | ai_comment_filter.py:246-249 | the fallback picks a field whose value is a list |
| AiCommentFilter.RecordsOfItems | ai_comment_filter.py:258-270 | one record per object item, in order, none marked for retry; other items are skipped |
| AiCommentFilter.NormaliseCases | ai_comment_filter.py:234-255 | a list is taken as it is; a `results` key decides alone; anything that is neither list nor object is an error |
| AiCommentFilter.Fallback | ai_comment_filter.py:165-176 | a failed batch gives one record per comment |
| AiCommentFilter.FailedBatchRetries | ai_comment_filter.py:165-176 | a failed batch's records line up with its comments, not hidden, without reason, marked for retry |
| AiCommentFilter.BatchOutcomeRetries | ai_comment_filter.py:161-163 | with this module's `_filter_batch`, a batch that succeeds has no record marked for retry |
| AiCommentFilter.SlicesCover | ai_comment_filter.py:158-159 | the slices cover the comments once and in order, all but the last of full size |
| AiCommentFilter.FailedBatchesRetry | ai_comment_filter.py:158-176 | failing batches give one retry record per comment, in order |
| AiCommentFilter.AllFailedLineUp | ai_comment_filter.py:158-176 | when every batch fails, the records line up one to one with the comments, all marked for retry |
| AiCommentFilter.FilterCommentsBatch | ai_comment_filter.py:131-178 | without a client nothing; otherwise the records of every slice in turn, a failing slice replaced by its fallback |
| AiCommentFilter.FilterSlices | ai_comment_filter.py:158-176 | the loop's records are those of the slices, in order |
| AiCommentFilter.ProcessBatch | ai_comment_filter.py:161-176 | one pass gives the batch's records, or its fallback records |
| AiCommentFilter.FallbackRecords | ai_comment_filter.py:169-176 | the loop builds the specified fallback records |
| AiCommentFilter.ResultsStep | ai_comment_filter.py:158-163 | the results are the first slice's outcome followed by the rest's |
| CommentsScanning.DropDismissed | comments_scanner.py:264-276 | drops exactly the dismissed comments |
| CommentsScanning.Unsaved | comments_scanner.py:73-85 | exactly the comments the store does not hold yet |
| CommentsScanning.Find | comments_scanner.py:420 | the comment the result names, or None when it names none |
| CommentsScanning.Dequeue | comments_scanner.py:448-453 | removing from the queue drops exactly that id |
| CommentsScanning.Enqueue | comments_scanner.py:442-447 | queuing adds exactly that id |
| CommentsScanning.StepEffect | comments_scanner.py:418-453 | one result: an unknown id changes nothing; otherwise the id is saved, stays queued exactly when a hide was attempted and failed, and the count grows exactly when it succeeded |
| CommentsScanning.HiddenBounded | comments_scanner.py:402-455 | the hide count never exceeds the number of flagged results |
| CommentsScanning.AsWrittenRetryNeverHides | comments_scanner.py:434-453 | as written, a queued comment comes back as not new, is never hidden and leaves the queue |
| CommentsScanning.CorrectedRetryHides | comments_scanner.py:434-453 | corrected, a queued flagged comment is hidden when the hide succeeds and stays queued when it fails |
| CommentsScanning.AsWrittenRetryExample | comments_scanner.py:434-453 | the concrete run: comment "c1", queued and flagged again, is neither hidden nor kept |
| CommentsScanning.ScanStore.SplitNewComments | comments_scanner.py:73-85 | the comments not saved, in order, and the count of saved ones |
| CommentsScanning.ScanStore.ProcessFilterResults | comments_scanner.py:402-455 | the store and the count are those of processing every result as written: a flagged comment is hidden only when it was newly added |
| CommentsScanning.ScanAndFilterComments | comments_scanner.py:24-135 | the early returns keep the store; otherwise the unsaved comments and the queue are filtered, and the hidden count, store and reason counts are those of the as-written hide rule |
| CommentsScanning.CountReasons | comments_scanner.py:113-118 | the political and hate counts of flagged results, at most the flagged total |
| CommentScanning.ToCheck | comment_scanner.py:48-52 | exactly the comments hidden neither on the page nor in the database |
| CommentScanning.HideAllEffect | comment_scanner.py:66-86 | the count is the number of flagged comments the page hid; each is hidden in the database afterwards and no other row changes |
| CommentScanning.ScanTotals | comment_scanner.py:40-89 | without an error every comment is counted, and no more are hidden than seen |
| CommentScanning.HiddenCommentsSkipped | comment_scanner.py:48-55 | a post whose comments are all hidden is skipped, so nothing is hidden twice |
| CommentScanning.ScanStops | comment_scanner.py:110-117 | after a classifier error the later posts change nothing |
| CommentScanning.CommentScanner.constructor | comment_scanner.py:13-18 | a new scanner is idle and has never scanned |
| CommentScanning.CommentScanner.ScanAndFilter | comment_scanner.py:20-119 | an overlapping call returns None with nothing changed; otherwise the scan is the specified one, success stamping the last scan time, and the flag is cleared |
| CommentScanning.ScanAllPosts | comment_scanner.py:40-89 | the loop over the posts is the specified scan |
| CommentScanning.HidePostComments | comment_scanner.py:66-86 | the hide loop of one post is the specified one |

## Left out

- Network, page API, sheet, LLM client, e-mail or Telegram notifications: these are parameters (listings, refused references, replies, outcomes), never called.
- Time zones and `datetime` formatting: times are integer seconds; `strftime`, ISO strings and the '+02:00' string surgery are not modelled, and a time string that fails to parse is modelled only where the code branches on it.
- Concurrency: the background threads of `approve_entry`, the scheduler loop and the scanning thread; `ScanAndFilter` models only the overlap flag.
- ExternalScheduler.Schedule.UpdatePost: a page that answers with a new post reference is not modelled; references are stable.
- Slots.PublishDuePosts: the query of due posts (`get_posts_due_for_publishing`) is not part of this model; the due posts are a parameter.
- Cascade.ApproveRoute: `schedule_post_to_facebook` is not part of this model; the route returns the text it would hand over.
- `should_skip_date` and `decrement_post_counter` are not part of this model: the first is the `skip` parameter, the second is modelled as lowering the counter by one.
- `get_recent_activity`, the review, denied, statistics, settings and comment pages, and the other routes render data without changing it, or only clear tables.
- The rate-limit branch of `_filter_comments_with_ai` (queue everything, return nothing) and the enrichment of comments with post text are not modelled.
- CommentsScanning.ScanAndFilterComments: `stats.errors` is always 0 because exceptions in fetching, hiding or saving are not modelled, and the float time filter on fetched comments is a parameter (`fetched`).
- CommentsScanning.ScanAndFilterComments: when no comment was fetched, the scan returns early even if the retry queue holds comments, exactly as the code does.
- CommentsScanning.ScanStore.ProcessFilterResults: the queue keeps the plain comment, not the annotated dict, and the `confidence` field is not modelled.
- CommentsDb.AiResult: `ai_confidence` is not stored in the model (`comments_db.py:67`); only reason and category are kept.
- `cleanup_old_dismissed_comments` (`comments_scanner.py:261`) and `update_post_comment_activity` (`comments_scanner.py:296`) are not part of this model: they only maintain bookkeeping tables that no modelled operation reads.
- LeadingDigits: `\d` in Python also matches non-ASCII decimal digits (Arabic-Indic, Devanagari and the rest of Unicode category Nd); the model's `PostPrefix.IsDigit` accepts '0'..'9' only, because a table of Unicode digits is out of scope.
- ExtractNone: weaker than the code for the same reason; a '#' followed by a non-ASCII digit counts as "no digit" in the model. This also applies to PostPrefix.ExtractPostNumber.
- ExtractSkips: weaker than the code for the same reason; its prefix may hold a '#' before a non-ASCII digit, which the regex would take.
- ParseWindow: Python's `int()` also accepts '_' between digits ("0_9") and non-ASCII decimal digits; `PostPrefix.ParseInt` accepts only an optional sign and ASCII digits, so such windows are reported as not parsing. `PostPrefix.ParseInt` and `PostPrefix.ParseIntText` share this limit.
- AiCommentFilter.FilterCommentsBatch: requires a non-zero batch size, because Python's `range` raises on a zero step.
- CommentScanning.CommentScanner.ScanAndFilter: `duration` and the formatted timestamp are not modelled; exceptions from hiding or saving a single comment are not modelled; `already_hidden` is always 0, as in the code.
- Textarea height uses character counts; Python counts code points, which is what `seq<char>` counts here, so no visual-width model is needed.

## Findings

| source | as written | input that shows it | evidently intended | confidence | as-written member | corrected member |
|---|---|---|---|---|---|---|
| app.py:328-437 | after deleting orphans the counter is lowered by their count (line 356), although compaction renumbers from the lowest number still listed and the deleted numbers need not be the highest | scheduled #n, #n+1, #n+2 with the counter at n+3; #n leaves the schedule; the counter becomes n+2 while #n+2 is still listed | the counter continues after the renumbered range, at lowest + number of posts | not executed | ReconcileSpec.AsWrittenCounterRepeatsLiveNumber | ReconcileSpec.CompactedCounterIsFresh |
| comments_scanner.py:434-453 | a hide is attempted only when `add_comment` reports the comment as new; a comment queued after a failed hide is already saved, so on retry no hide is attempted and it is removed from the queue | comment "c1" saved and queued after a failed hide, flagged again, with the hide now possible: it is neither hidden nor kept queued | a queued comment that is still flagged is hidden on retry, and stays queued while the hide keeps failing | not executed | CommentsScanning.AsWrittenRetryExample | CommentsScanning.CorrectedRetryHides |
