# Announcements: a Dafny model of the decision logic

This project models the logic of a small product-announcement system. Administrators write announcements in a console. They create them with a form, publish, archive or delete them from a list, and see counts in an analytics view. End users see the published ones in one of two places:

- an in-product React widget;
- an embeddable vanilla script that calls a public endpoint.

Each of the two widgets keeps its own "read" set in browser storage and shows an unread badge.

Everything is modelled as immutable data and pure functions:

- **Time:** instants are integer milliseconds, and "now" is a parameter.
- **Browser storage:** a map from key to the parsed string array.
- **JavaScript `Set`:** an insertion-ordered, duplicate-free sequence, so that `[...set]` is computable.
- **External outcomes are inputs:** the record store's replies, the URL parser's verdict (`validUrl`), the network's reply to `fetch`, and the authentication calls.
- **Delayed steps** (`setTimeout`) are applied as ordinary state steps.

Modules:

- `Common` covers optional values, JavaScript truthiness, `includes` and order-preserving filtering.
- `Types` holds the records and enumerations.
- `JsSet` models the ordered set.
- `Badge` holds the badge rule.
- `ReadStatusHook` is the in-product read tracker.
- `WidgetScript` is the embeddable script.
- `AnnouncementWidget` is the in-product widget.
- `CreateForm` holds validation and submission.
- `AnnouncementsHook` is the store hook and its local cache.
- `AnnouncementList` is the admin list.
- `Analytics` holds the counts and bar widths.
- `EdgeFunction` is the public endpoint.
- `AuthForm` is the sign-in form.
- `EmbedCode` is the snippet generator.

Where a natural reading of the design and the code differ, the model follows the code:

- The two read trackers use different storage keys: `readAnnouncements` for the hook, `announcements-read` for the script. They never see each other's marks (`WidgetScript.TrackersAreIndependent`).
- `published_at` is stamped again on every update that sets the status to published. It is not set once.
- The schedule check rejects an instant that is exactly five minutes ahead, because the code uses `<=`.
- The store hook accepts any status change. Only the list's buttons restrict the lifecycle.
- A new announcement may be created directly as scheduled.
- The time zone chosen in the form plays no part in computing the schedule instant.

## Model

| member | source | states |
|---|---|---|
| Types.StatusOf | src/types/index.ts:27-38 | creation data maps onto the stored statuses one-to-one and can never be stored as archived |
| JsSet.Add | src/hooks/useReadStatus.ts:14 | adding to the ordered set keeps it duplicate-free, its members are the old ones plus the new id, and adding a present id changes nothing |
| JsSet.AddAllElems | src/hooks/useReadStatus.ts:20 | `new Set([...a, ...ids])` holds exactly the union of the two and keeps the old order as a prefix |
| JsSet.AddAllIdempotent | src/hooks/useReadStatus.ts:20 | adding the same ids a second time changes nothing |
| JsSet.FromSeqElems | src/hooks/useReadStatus.ts:9 | `new Set(array)` holds exactly the array's elements |
| JsSet.FromSeqOfDistinct | src/hooks/useReadStatus.ts:16 | spreading a set into an array and building a set from it again gives the same set, in the same order |
| JsSet.AddAllPresent | public/widget.js:329 | adding ids that are all present changes nothing |
| JsSet.AddAllConcat | src/hooks/useReadStatus.ts:20 | adding two batches one after the other is adding their concatenation |
| JsSet.SpreadUnion | src/hooks/useReadStatus.ts:14 | spreading a duplicate-free set into a new set is the same as adding to it |
| ReadStatusHook.Mount | src/hooks/useReadStatus.ts:4-10 | the initial read set is empty without a stored entry, and otherwise holds exactly the stored ids |
| ReadStatusHook.MarkAsRead | src/hooks/useReadStatus.ts:13-17 | marking yields exactly the old set plus the id, persists the new set under the hook's key, and leaves other keys alone |
| ReadStatusHook.MarkAsReadIdempotent | src/hooks/useReadStatus.ts:14 | marking the same id twice is marking it once |
| ReadStatusHook.MarkAllAsRead | src/hooks/useReadStatus.ts:19-23 | mark-all yields the old set plus all ids in one write, and the persisted value is the in-memory set |
| ReadStatusHook.MarkAllThenNoneUnread | src/hooks/useReadStatus.ts:19-29 | after marking all ids, none of them is unread |
| ReadStatusHook.UnreadCount | src/hooks/useReadStatus.ts:27-29 | the count is at most the list length; it is zero exactly when every id is read and full exactly when none is |
| ReadStatusHook.UnreadIsComplement | src/hooks/useReadStatus.ts:27-29 | unread and read positions add up to the list length |
| ReadStatusHook.MarkThenReload | src/hooks/useReadStatus.ts:7-16 | a fresh mount after a mark sees the same read set |
| Badge.BadgeFor | public/widget.js:176-181 | the badge shows exactly when enabled and the count is positive; its text is "9+" exactly above nine, otherwise the single digit of the count |
| Badge.BadgeReadsBack | src/components/widget/AnnouncementWidget.tsx:83-87 | the count can be read back from a badge of at most nine, and any larger count shows as "9+" |
| WidgetScript.Merge | public/widget.js:6-15 | every value the user sets overrides the default, and every key the user leaves out keeps its default |
| WidgetScript.MergeOverrides | public/widget.js:15 | a user value wins, a missing key keeps the default, and an empty user object yields the defaults |
| WidgetScript.PositionStyles | public/widget.js:121-129 | the style is always one of the four corners, and any position other than the four names falls back to bottom-right |
| WidgetScript.PositionStylesDistinct | public/widget.js:122-127 | distinct named corners get distinct styles |
| WidgetScript.TypeIcon | public/widget.js:131-139 | a type other than the four names gets the pin icon and a known type never does |
| WidgetScript.TypeIconsDistinct | public/widget.js:132-137 | each of the four types has its own icon |
| WidgetScript.StoredReadStatus | public/widget.js:145-148 | without a stored entry the set is empty; otherwise it holds exactly the stored ids |
| WidgetScript.SaveReadStatus | public/widget.js:150-152 | reading back after a save yields exactly the saved set; other keys are untouched |
| WidgetScript.MarkAsRead | public/widget.js:154-164 | the read-modify-write adds only the id, after which the id reads as read |
| WidgetScript.MarkAsReadIdempotent | public/widget.js:154-157 | marking twice is marking once |
| WidgetScript.UnreadCount | public/widget.js:166-169 | counts entries with unread ids: at most the list length, zero exactly when all are read, the full length exactly when none is |
| WidgetScript.UnreadCountAgrees | public/widget.js:166-169 | the script's count equals the in-product tracker's count over the same ids and stored set, which is the list length minus the entries read |
| WidgetScript.UnreadIds | public/widget.js:327 | the filter collects as many ids as the unread count |
| WidgetScript.UnreadIdsMembers | public/widget.js:327 | an id is collected exactly when it belongs to a fetched entry and is not yet read |
| WidgetScript.MarkAllSeen | public/widget.js:326-331 | after the delayed step an id reads as read exactly when it was read before or belongs to a fetched entry; other storage keys are untouched |
| WidgetScript.MarkAllSeenClearsUnread | public/widget.js:326-331 | after the delayed step, the fetched list has no unread entry |
| WidgetScript.FetchUrl | public/widget.js:279 | without a configured store address, the request goes to "undefined/functions/v1/announcements" |
| WidgetScript.FetchAnnouncements | public/widget.js:271-295 | with a truthy user id and an ok response the result is that response's body; a non-empty result needs both |
| WidgetScript.BadgeAfterFetch | public/widget.js:171-184 | the badge shows exactly when enabled and the fetched list has an unread entry |
| WidgetScript.FailedFetchHidesBadge | public/widget.js:273-294 | a missing user id, a thrown error or a non-ok response yields the empty list and a hidden badge |
| WidgetScript.TogglePanel | public/widget.js:310-334 | opening flips the panel open and, after the delay, leaves nothing fetched unread; closing leaves storage alone |
| WidgetScript.ClickItem | public/widget.js:258-268 | clicking an item makes it read, and clicking a read item changes nothing |
| WidgetScript.AutoOpenClosesAsWritten | public/widget.js:308-353 | with auto-open set, the script as written ends with the panel closed, nothing loaded and no badge refresh |
| WidgetScript.Init | public/widget.js:308-353 | corrected start-up: the panel is open and loaded exactly when auto-open is set, and otherwise the badge is refreshed |
| WidgetScript.TrackersAreIndependent | public/widget.js:146 | the script's writes never change what the in-product tracker loads, and the hook's writes never change the script's set |
| AnnouncementWidget.PublishedAsWrittenIsEmpty | src/components/widget/AnnouncementWidget.tsx:31 | the filter on a property the record lacks drops every announcement |
| AnnouncementWidget.PublishedAsWrittenHidesUnread | src/components/widget/AnnouncementWidget.tsx:31-32 | a published unread announcement gives an unread count of 1 under the corrected filter, yet no badge as written |
| AnnouncementWidget.PublishedOnly | src/components/widget/AnnouncementWidget.tsx:31 | the corrected filter keeps exactly the published announcements |
| AnnouncementWidget.UnreadCount | src/components/widget/AnnouncementWidget.tsx:31-32 | under the corrected filter: the count is at most the number published, and zero exactly when every published one is read |
| AnnouncementWidget.UnreadCountExact | src/components/widget/AnnouncementWidget.tsx:31-32 | under the corrected filter: the count is exactly the number of published announcements whose id is unread, which is the number published minus those already read |
| AnnouncementWidget.UnpublishedNeverCounts | src/components/widget/AnnouncementWidget.tsx:31-32 | adding an unpublished announcement never changes the count |
| AnnouncementWidget.WidgetBadge | src/components/widget/AnnouncementWidget.tsx:83-87 | under the corrected filter: the badge shows exactly when `showBadge` is true in the prop and something published is unread |
| AnnouncementWidget.Initial | src/components/widget/AnnouncementWidget.tsx:18-29 | the panel starts open exactly when `autoOpen` is true, closed without a prop, and with nothing expanded |
| AnnouncementWidget.HandleToggle | src/components/widget/AnnouncementWidget.tsx:45-52 | under the corrected filter: the toggle flips the panel; only opening with something unread marks every published id, and closing marks nothing |
| AnnouncementWidget.OpenClearsUnread | src/components/widget/AnnouncementWidget.tsx:45-51 | under the corrected filter: once opened and after the delay, nothing published is unread |
| AnnouncementWidget.ToggleAsWrittenMarksNothing | src/components/widget/AnnouncementWidget.tsx:31-52 | as written, the toggle only flips the panel and never marks anything read, and the closed button never shows a badge |
| AnnouncementWidget.ToggleContrast | src/components/widget/AnnouncementWidget.tsx:31-52 | opening over one published unread announcement marks it read under the corrected filter and leaves it unread as written |
| AnnouncementWidget.Close | src/components/widget/AnnouncementWidget.tsx:104 | closing leaves the read set and expansion alone |
| AnnouncementWidget.HandleClick | src/components/widget/AnnouncementWidget.tsx:54-63 | a click leaves the item read and other ids' read state alone, keeps a read item's set unchanged, and collapses or expands so at most one item is expanded |
| AnnouncementWidget.ClickTwice | src/components/widget/AnnouncementWidget.tsx:54-63 | a second click collapses the item again and adds nothing to the read set |
| CreateForm.TrimEmptyIffAllTrimmable | src/components/admin/CreateAnnouncementForm.tsx:48 | trimming yields the empty string exactly when every character is white space or a line terminator |
| CreateForm.Validate | src/components/admin/CreateAnnouncementForm.tsx:45-85 | every reported error carries its own field's fixed message |
| CreateForm.ValidateTextFields | src/components/admin/CreateAnnouncementForm.tsx:48-81 | title, content and the two URLs are checked independently: each has an error exactly when its own condition fails (blank title; blank or empty-editor content; a non-empty URL the parser rejects) |
| CreateForm.ValidateScheduleFields | src/components/admin/CreateAnnouncementForm.tsx:56-73 | for the scheduled option only, a missing date and a missing time are reported separately, and an instant not more than five minutes ahead is reported once both are present; an invalid date is not reported |
| CreateForm.FieldKeysDistinct | src/components/admin/CreateAnnouncementForm.tsx:49-80 | the error keys of distinct fields differ |
| CreateForm.EmptyTitleOnlyTitleError | src/components/admin/CreateAnnouncementForm.tsx:48-84 | an empty title with real content and no URLs yields exactly one error, on the title |
| CreateForm.FourMinutesAheadRefused | src/components/admin/CreateAnnouncementForm.tsx:64-71 | a schedule four minutes ahead is refused |
| CreateForm.StatusFor | src/components/admin/CreateAnnouncementForm.tsx:108-116 | publish-now maps to published, schedule to scheduled, and draft to draft, one-to-one |
| CreateForm.Submission | src/components/admin/CreateAnnouncementForm.tsx:108-122 | the schedule instant is present exactly for the scheduled option; an invalid scheduled date throws; title, content, type, priority, time zone and the three optional texts pass through unchanged |
| CreateForm.HandleSubmit | src/components/admin/CreateAnnouncementForm.tsx:96-162 | an invalid form submits nothing and shows its errors; a resolved submission resets the form to the defaults with a success message; an error is shown exactly when a valid form's date is invalid or the store rejects; an invalid date shows the date error text and submits nothing; a rejection keeps the form and shows the rejection's message, or the fixed failure text when it is empty |
| CreateForm.ScheduledSubmissionIsInFuture | src/components/admin/CreateAnnouncementForm.tsx:64-116 | anything submitted as scheduled carries an instant more than five minutes after now |
| AnnouncementsHook.BuildInsertRow | src/hooks/useAnnouncements.ts:69-82 | the row has a publish instant exactly when published, equal to now; empty or absent optional texts are stored as null |
| AnnouncementsHook.AddAnnouncement | src/hooks/useAnnouncements.ts:59-115 | without a user it rejects and the cache is unchanged; a store error leaves the cache unchanged; success prepends the stored record, whose id and creation instant are the store's and whose other fields are the inserted row's |
| AnnouncementsHook.CreatedPublishedIsStamped | src/hooks/useAnnouncements.ts:81 | an announcement created as published is stamped with the client's instant at the add call, not the store's creation time |
| AnnouncementsHook.UpdateData | src/hooks/useAnnouncements.ts:121-136 | the patch copies exactly the defined fields; it stamps the publish instant exactly for a publish update without a caller instant |
| AnnouncementsHook.CallerPublishedAtIgnored | src/hooks/useAnnouncements.ts:121-131 | a caller-supplied publish instant never reaches the store |
| AnnouncementsHook.ApplyPatch | src/hooks/useAnnouncements.ts:138-143 | applying a patch never changes the row's id, owner or creation instant |
| AnnouncementsHook.PublishRestamps | src/hooks/useAnnouncements.ts:134-136 | every publish update stamps `now`, whatever publish instant the row had |
| AnnouncementsHook.NoStatusKeepsPublishedAt | src/hooks/useAnnouncements.ts:125-136 | an update without a status keeps both status and publish instant |
| AnnouncementsHook.UpdateAnnouncement | src/hooks/useAnnouncements.ts:117-177 | a store error leaves the cache unchanged; success replaces the element with that id by the patched row |
| AnnouncementsHook.ReplaceById | src/hooks/useAnnouncements.ts:167-169 | replacement keeps length and order and changes only the elements with the id |
| AnnouncementsHook.ReplaceKeepsIds | src/hooks/useAnnouncements.ts:167-169 | replacing keeps every position's id, and replacing twice is replacing once |
| AnnouncementsHook.RemoveById | src/hooks/useAnnouncements.ts:192 | the result holds exactly the elements without the id |
| AnnouncementsHook.RemoveKeepsOrder | src/hooks/useAnnouncements.ts:192 | deletion keeps the other elements in order and removes exactly as many as had the id |
| AnnouncementsHook.DeleteAnnouncement | src/hooks/useAnnouncements.ts:179-198 | a store error leaves the cache unchanged; success removes the id |
| AnnouncementsHook.AddThenDelete | src/hooks/useAnnouncements.ts:108-192 | deleting a just-added record with a fresh id restores the earlier list |
| AnnouncementsHook.RemoveNothing | src/hooks/useAnnouncements.ts:192 | deleting an id nobody has changes nothing |
| AnnouncementList.ViewFor | src/components/admin/AnnouncementList.tsx:50-71 | loading wins over an error, an error over the list, and the list shows exactly when neither holds |
| AnnouncementList.HeaderCounts | src/components/admin/AnnouncementList.tsx:78 | the published count is at most the total, and zero exactly when nothing is published |
| AnnouncementList.HeaderMatchesPublishedFilter | src/components/admin/AnnouncementList.tsx:78 | the header's published count equals the length of the published filter |
| AnnouncementList.DatesExclusive | src/components/admin/AnnouncementList.tsx:124-133 | an item never shows both the schedule line and the publish date |
| AnnouncementList.CreatedPublishedShowsDate | src/components/admin/AnnouncementList.tsx:133 | an item created as published shows its publish date and no schedule |
| AnnouncementList.OfferedStatus | src/components/admin/AnnouncementList.tsx:149-174 | drafts and scheduled items can be published, published items archived, archived items nothing |
| AnnouncementList.OfferedUpdate | src/components/admin/AnnouncementList.tsx:149-184 | every non-archived item offers one update, naming only a status different from its own |
| AnnouncementList.OfferedPathsEndArchived | src/components/admin/AnnouncementList.tsx:149-174 | following the buttons always leads to archived within two steps and never back to draft or scheduled |
| AnnouncementList.PublishButtonStamps | src/components/admin/AnnouncementList.tsx:151-169 | a publish click stamps the row with the click's instant |
| AnnouncementList.HookAcceptsAnyStatus | src/hooks/useAnnouncements.ts:117-177 | the hook lets an archived row return to draft although no button offers it |
| Analytics.CountStatus | src/components/admin/Analytics.tsx:12-15 | a status count is at most the total and zero exactly when no item has the status |
| Analytics.CountStatusIsFilter | src/components/admin/Analytics.tsx:12-15 | a status count is the length of the list filtered to that status |
| Analytics.StatsOf | src/components/admin/Analytics.tsx:10-21 | each status card is the count of items with that status and the month card the count created in now's month; the four status counts add up to the total, and this month's count is at most the total |
| Analytics.StatusCountsSum | src/components/admin/Analytics.tsx:11-15 | published, scheduled, draft and archived counts partition the list |
| Analytics.CountThisMonth | src/components/admin/Analytics.tsx:16-20 | at most the total, and equal to it exactly when every item was created in now's month |
| Analytics.TypeCountsSum | src/components/admin/Analytics.tsx:23-26 | the four type counts partition the list |
| Analytics.TypeStatsCounts | src/components/admin/Analytics.tsx:23-26 | the reduction has an entry exactly for the types present, holding that type's count |
| Analytics.TypeStatsSum | src/components/admin/Analytics.tsx:23-26 | the tally's values add up to the total |
| Analytics.Percent | src/components/admin/Analytics.tsx:104 | a share lies in [0,100]; it is 100 exactly for the whole and 0 exactly for none |
| Analytics.StatusWidth | src/components/admin/Analytics.tsx:129 | a status bar is 0 for an empty list, in [0,100] otherwise, 0 exactly when no item has the status |
| Analytics.TypeWidth | src/components/admin/Analytics.tsx:97-104 | a type bar, drawn only for tallied types, is never empty and at most 100 |
| EdgeFunction.Insert | supabase/functions/announcements/index.ts:35 | insertion adds exactly one element |
| EdgeFunction.InsertBounded | supabase/functions/announcements/index.ts:35 | an element that precedes both the inserted element and every element of a list precedes every element of the result |
| EdgeFunction.SortedSplit | supabase/functions/announcements/index.ts:35 | the head of an ordered list precedes every later element, and the rest is ordered |
| EdgeFunction.InsertSorted | supabase/functions/announcements/index.ts:35 | inserting into a list ordered by publish instant, newest first, keeps it ordered |
| EdgeFunction.SortedCons | supabase/functions/announcements/index.ts:35 | a head that precedes every element of an ordered list keeps it ordered |
| EdgeFunction.SortDesc | supabase/functions/announcements/index.ts:35 | the result is a permutation of the input, ordered by publish instant descending with missing instants first |
| EdgeFunction.Project | supabase/functions/announcements/index.ts:41-53 | the projection keeps the listed public fields unchanged |
| EdgeFunction.ProjectionDrops | supabase/functions/announcements/index.ts:41-53 | owner, time zone, schedule instant and update instant never reach the response |
| EdgeFunction.ProjectAll | supabase/functions/announcements/index.ts:41-53 | the mapped list has one summary per row |
| EdgeFunction.ProjectAllAt | supabase/functions/announcements/index.ts:41-53 | the mapped list projects each element in place |
| EdgeFunction.SortDescMembers | supabase/functions/announcements/index.ts:35 | ordering neither adds nor drops a row |
| EdgeFunction.ProjectAllMembers | supabase/functions/announcements/index.ts:41-53 | every summary comes from some row and every row's summary is listed |
| EdgeFunction.SelectedRows | supabase/functions/announcements/index.ts:30-35 | the queried rows are the user's published rows, each exactly as often as in the table, ordered newest first |
| EdgeFunction.QueryResult | supabase/functions/announcements/index.ts:30-53 | the body is the projection of the queried rows position by position, so each of the user's published rows appears as often as in the table; every summary comes from such a row, and the list is newest first |
| EdgeFunction.Handle | supabase/functions/announcements/index.ts:7-71 | a preflight gets "ok"; a failed client gets 500; a missing user id gets 400; a query error gets 500 with the query's message; a ready client with a user id and a table, even an empty one, gets 200 with the query result; and every 200 carries the query result |
| EdgeFunction.EveryResponseIsCors | supabase/functions/announcements/index.ts:1-5 | every branch's response allows every origin and lists `x-user-id` among the allowed headers |
| EdgeFunction.ServesOwnPublished | supabase/functions/announcements/index.ts:30-60 | a user's published row appears in a successful response |
| EdgeFunction.AsWrittenAlwaysFails | supabase/functions/announcements/index.ts:13 | as written, every request but a preflight gets 500 before the user id is read |
| AuthForm.Submit | src/components/auth/AuthForm.tsx:15-36 | an empty field submits nothing; the confirmation mode is entered only from sign-up when confirmation is needed, and records the email; an error is present exactly when the call failed |
| AuthForm.Toggle | src/components/auth/AuthForm.tsx:219-223 | sign-in and sign-up swap, and the error clears |
| AuthForm.ToggleTwice | src/components/auth/AuthForm.tsx:219-223 | toggling twice restores the form except for the cleared error |
| AuthForm.Back | src/components/auth/AuthForm.tsx:111-116 | going back leaves sign-in mode with empty fields and no error |
| AuthForm.SignUpThenBack | src/components/auth/AuthForm.tsx:24-29 | a confirmed sign-up followed by back returns to the initial form, keeping the confirmation address |
| AuthForm.ErrorMessage | src/components/auth/AuthForm.tsx:46-57 | the first recognised substring decides the text; otherwise the raw message, or the generic text when there is none; never empty |
| AuthForm.FirstMatchWins | src/components/auth/AuthForm.tsx:47-52 | a message with both bad credentials and unconfirmed email is reported as bad credentials |
| AuthForm.ShownTextIsKnownOrRaw | src/components/auth/AuthForm.tsx:46-57 | the text shown is one of the four fixed texts or the unrecognised raw message |
| EmbedCode.SnippetUserId | src/components/admin/EmbedCodeGenerator.tsx:18 | the user's id, or the placeholder when nobody is signed in; never empty |
| EmbedCode.Body | src/components/admin/EmbedCodeGenerator.tsx:18-25 | the text after the head contains the user-id line, each option's line and the loader |
| EmbedCode.Snippet | src/components/admin/EmbedCodeGenerator.tsx:15-25 | the snippet contains the user-id line, each option's line and the loader for the console's origin |
| EmbedCode.PropertyLineLacks | src/components/admin/EmbedCodeGenerator.tsx:18-22 | for a letters-only word with a `U` in it (such as `supabaseUrl`), a property line whose name has no `U` contains the word only if its value does |
| EmbedCode.SnippetLacks | src/components/admin/EmbedCodeGenerator.tsx:15-25 | a letters-only word with a `U` in it, such as `supabaseUrl`, appears nowhere in the snippet unless the user id, an option or the origin contains it |
| EmbedCode.SnippetDefinesConfig | src/components/admin/EmbedCodeGenerator.tsx:17-23 | each of the five keys the configuration record holds is written in the snippet text as a property line with that value |
| EmbedCode.SnippetOmitsUrlKeys | src/components/admin/EmbedCodeGenerator.tsx:17-23 | the record has no `supabaseUrl` or `apiUrl`, and neither key occurs in the snippet text unless a user text contains it |
| EmbedCode.SnippetOptionsReachWidget | src/components/admin/EmbedCodeGenerator.tsx:8-23 | the script runs with exactly the chosen options, and the generator's defaults are the script's defaults |
| EmbedCode.SnippetFetchUrlAsWritten | src/components/admin/EmbedCodeGenerator.tsx:17-23 | as written, the snippet text lacks `supabaseUrl` and a page running it fetches from "undefined/functions/v1/announcements" |
| EmbedCode.SnippetWithEndpoint | src/components/admin/EmbedCodeGenerator.tsx:15-25 | the corrected snippet writes the store address line and keeps the user-id, option and loader lines |
| EmbedCode.SnippetWithEndpointFetchesEndpoint | public/widget.js:279 | the corrected snippet's text carries the store address its record holds, and the script then fetches the endpoint under that address |

## Left out

- Rendering, styling, hover effects and the dashboard's tab switching are left out. They are display only; this includes the colour tables of the list and the in-panel count.
- The timers are not modelled as timers. The grace periods of one and two seconds are applied at once, and the 30-second badge poll is left out. Races between a pending timer and later clicks are therefore not modelled.
- Storage holds parsed arrays. Malformed JSON, quota errors and a stored empty string are not modelled. An empty string is falsy and would read as "nothing stored".
- Both read trackers show an in-memory staleness that is left out:
  - the hook's closures read a set that React may not have updated yet;
  - the script's `markAsRead` also triggers a badge refetch.
- Date parsing and formatting are left out: `new Date`, `toLocaleDateString`, `toISOString` and the scheduled success text. The parsed instant is an input; an invalid date is an absent instant.
- `src/lib/timezones.ts` is not part of this model. It consists of `Intl` calls and a label table.
- `src/hooks/useAuth.ts` is not part of this model. Its sign-in and sign-up calls are inputs. Only its error text defaults are kept: the thrown message, or a fixed text when it is empty.
- The store's own behaviour beyond what the code relies on is left out. This covers `updated_at` maintenance, row-level security and ties in the publish order. The model orders ties by their order in the table.
- `AnnouncementsHook.ApplyPatch`: leaves `updatedAt` as it was, because maintaining it is the store's business and is not visible here.
- `Analytics.Percent`: uses exact reals, so the rounding of floating-point division is not modelled.
- `Analytics.CountThisMonth`: "same calendar month" is a function parameter, because local-time month extraction belongs to `Date`.
- `WidgetScript.Merge`: a key set to `undefined` or `null` in the page's configuration is modelled as absent and keeps its default. `Object.assign` copies such a key, so `showBadge: undefined` hides the badge and `position: null` leads to the bottom-right fallback. The model's optional values cannot tell present-but-empty from absent.
- `WidgetScript.FetchAnnouncements`: the network reply is an input, and the request headers are not modelled.
- `EmbedCode.Snippet`: states which lines the text contains, not the complete text.
- `EmbedCode.SnippetLacks`: a user id, option or origin that itself contains the key is not analysed. Its line would contain the key.
- `WidgetScript.PositionStyles`: an inherited object member name such as "constructor" or "toString" looks up a prototype member in JavaScript, not the bottom-right fallback. The model treats every name other than the four corners as unknown.
- `WidgetScript.TypeIcon`: an inherited member name such as "constructor" or "toString" looks up a prototype member, not the pin. The model treats every name other than the four types as unknown.
- `AnnouncementWidget.UnreadCount`: modelled under the corrected `status` filter. As written, the count is always 0 (see `AnnouncementWidget.PublishedAsWrittenIsEmpty`).
- `AnnouncementWidget.WidgetBadge`: modelled under the corrected filter. As written, the badge is never shown (see `AnnouncementWidget.ToggleAsWrittenMarksNothing`).
- `AnnouncementWidget.HandleToggle`: modelled under the corrected filter. As written, toggling never marks anything read (see `AnnouncementWidget.ToggleAsWrittenMarksNothing` and `AnnouncementWidget.ToggleContrast`).
- `AnnouncementWidget.OpenClearsUnread`: holds under the corrected filter. As written, the count is 0 before and after, and nothing is marked read.
- `AuthForm.Submit`: submitting from the confirmation mode is modelled as the code does it, as a sign-in, even though that mode renders no form.

## Findings

| source | as written | input that shows it | evidently intended | confidence | as-written member | corrected member |
|---|---|---|---|---|---|---|
| src/components/widget/AnnouncementWidget.tsx:31 | filters on `a.isPublished`, which the announcement record never has | any list holding a published announcement nobody has read | keep announcements whose status is published | high, not executed | AnnouncementWidget.PublishedAsWrittenHidesUnread | AnnouncementWidget.PublishedOnly |
| public/widget.js:308-353 | `isOpen` starts at `autoOpen`, and `togglePanel()` then flips it back | a configuration with `autoOpen: true` | start closed and toggle open, so the panel opens and loads | high, not executed | WidgetScript.AutoOpenClosesAsWritten | WidgetScript.Init |
| supabase/functions/announcements/index.ts:13 | `createClient` is called but never imported | any GET request with a valid `x-user-id` | import the store client so the query runs | high, not executed | EdgeFunction.AsWrittenAlwaysFails | EdgeFunction.ServesOwnPublished |
| src/components/admin/EmbedCodeGenerator.tsx:17-23 | the snippet never sets `supabaseUrl`, which the script interpolates into its fetch address | any page that pastes the generated snippet | the snippet carries the store's base address | high, not executed | EmbedCode.SnippetFetchUrlAsWritten | EmbedCode.SnippetWithEndpointFetchesEndpoint |
