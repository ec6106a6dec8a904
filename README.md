# SmsViewer message engine in Dafny

This project models the logic at the centre of the SmsViewer Android SMS
client:

- the message record and the list adapter, with its live filter;
- contact suggestions: matching, deduplication by normalized number, and ranking;
- the send action, which validates the input, stores a pending "sent" row and dispatches with delivery reports;
- the delivery-report receiver, which writes the delivery outcome back to the row;
- the main timeline, which merges Inbox and Sent and sorts newest first, plus the tap-to-mark-read guard;
- the detail screen: the status line, the clipboard text, and the mark-read and delete guards.

The platform's SMS table is one map from id to row (`Provider.SmsProvider`).
The Inbox and Sent URIs are views of it, restricted by message type.
Screens and adapters whose fields change become classes, and their methods
are proved against pure functions. The pure functions carry the properties
as lemmas.

Modules, one file each:

| file | module | source |
|---|---|---|
| wrappers.dfy | `Wrappers` | `Option` |
| text.dfy | `Text` | the Kotlin string operations the code calls: `isBlank`, `trim`, `lowercase`, `contains`/`startsWith` with and without `ignoreCase`, `substringAfter`/`substringBefore`, `split(" ")` and `toLongOrNull` |
| sorting.dfy | `Sorting` | the stable sort behind `sortedWith` and `sortByDescending` |
| provider.dfy | `Provider` | the SMS content provider as seen through `insert`/`update`/`delete` by `_ID` |
| messages.dfy | `Messages` | `SmsAdapter.kt` |
| contacts.dfy | `Contacts` | `ContactHelper.kt` |
| compose.dfy | `Compose` | `ComposeActivity.kt` |
| delivery.dfy | `DeliveryReports` | `DeliveryReportReceiver.kt` |
| timeline.dfy | `MainScreen` | `MainActivity.kt` |
| detail.dfy | `Detail` | `SmsDetailActivity.kt` |

Three behaviours of the code worth knowing:

- After extracting the number, the code does not reject an empty or blank one. Only the raw recipient is checked for blankness. So "Bob ()" is stored with an empty address, and the send then fails because the radio rejects an empty destination (`Compose.EmptyBracketsStoredThenFail`).
- Delivery reports have no "first terminal status wins" guard. A failure report after a delivery report overwrites COMPLETE with FAILED (`DeliveryReports.FailureAfterDeliveryOverwrites`).
- An unknown result code changes nothing in the table, but the refresh broadcast is still sent (`DeliveryReports.OnReceive`).

## Model

| member | source | states |
|---|---|---|
| Messages.DisplayName | app/src/main/java/com/example/smsviewer/SmsAdapter.kt:25-26 | the contact name when there is one, otherwise the address |
| Messages.DisplayLabel | app/src/main/java/com/example/smsviewer/SmsAdapter.kt:28-29 | the label is "To: " for a sent message or "From: " for a received one, followed by the whole display name |
| Messages.LabelShowsDirectionAndName | app/src/main/java/com/example/smsviewer/SmsAdapter.kt:28-29 | the label starts with "To: " exactly for sent messages and with "From: " exactly for received ones, ends with the display name, and has nothing else: its length is 4 or 6 plus the name's |
| Messages.IsDelivered | app/src/main/java/com/example/smsviewer/SmsAdapter.kt:31-32 | a record counts as delivered exactly when its status is "none" (the same constant as "complete"), so it is never pending or failed |
| Messages.NoStatusReadsAsDelivered | app/src/main/java/com/example/smsviewer/SmsAdapter.kt:31-38 | `STATUS_NONE` and `STATUS_COMPLETE` are both 0, so a record with no status counts as delivered |
| Messages.BindItem | app/src/main/java/com/example/smsviewer/SmsAdapter.kt:61-106 | the row shows the label and body. The delivery icon is visible exactly for sent messages with status COMPLETE, PENDING or FAILED, and shows the icon for that status. The unread icon is visible exactly for received unread messages. The two icons are never both visible |
| Messages.Matching | app/src/main/java/com/example/smsviewer/SmsAdapter.kt:125-128 | every kept message comes from the list and contains the query in its display name or body, ignoring case. The result is never longer than the list |
| Messages.Filtered | app/src/main/java/com/example/smsviewer/SmsAdapter.kt:121-129 | the empty query shows the whole list. Any other query shows only hits. The view is always an order-preserving subsequence of the list |
| Messages.MatchingKeepsExactlyTheHits | app/src/main/java/com/example/smsviewer/SmsAdapter.kt:124-128 | for a non-empty query, every kept message has a display name or body containing the query (ignoring case), every such message is kept, and the kept ones form an order-preserving subsequence |
| Messages.MatchingDistributes | app/src/main/java/com/example/smsviewer/SmsAdapter.kt:125-128 | filtering a concatenation is the concatenation of the filtered parts |
| Messages.EmptyQueryKeepsAll | app/src/main/java/com/example/smsviewer/SmsAdapter.kt:122-128 | the empty query is contained in everything, so the general branch would keep every message too |
| Messages.SmsAdapter.constructor | app/src/main/java/com/example/smsviewer/SmsAdapter.kt:43-44 | both lists start empty |
| Messages.SmsAdapter.ItemCount | app/src/main/java/com/example/smsviewer/SmsAdapter.kt:113 | while the view is a subsequence of the loaded list, the count never exceeds the number of loaded messages |
| Messages.SmsAdapter.BindViewHolder | app/src/main/java/com/example/smsviewer/SmsAdapter.kt:61-62 | a position shows the filtered message at that position |
| Messages.SmsAdapter.SetMessages | app/src/main/java/com/example/smsviewer/SmsAdapter.kt:115-119 | both lists become the new list, which drops any active filter |
| Messages.SmsAdapter.Filter | app/src/main/java/com/example/smsviewer/SmsAdapter.kt:121-131 | the full list is unchanged. The filtered list is the whole list for "" and the hits otherwise, always derived from the full list |
| Messages.RetypeQuery | app/src/main/java/com/example/smsviewer/SmsAdapter.kt:121-131 | filtering by one query and then another gives the same view as filtering by the second alone |
| Provider.Updated | app/src/main/java/com/example/smsviewer/DeliveryReportReceiver.kt:47-52 | an update by `_ID` changes only the row the selection hits, and only the columns the values carry. Without a hit the table is unchanged |
| Provider.Removed | app/src/main/java/com/example/smsviewer/SmsDetailActivity.kt:204-208 | a delete by `_ID` removes exactly the row the selection hits through that collection |
| Provider.MarkReadSetsOnlyRead | app/src/main/java/com/example/smsviewer/MainActivity.kt:381-393 | marking read sets READ to 1 on the selected row and changes nothing else |
| Provider.MarkReadIdempotent | app/src/main/java/com/example/smsviewer/SmsDetailActivity.kt:104-116 | marking the same message read twice (from the list and again on opening it) equals marking it once |
| Provider.SmsProvider.Insert | app/src/main/java/com/example/smsviewer/ComposeActivity.kt:126 | an accepted insert stores the row under a fresh id (ids start at 1) and answers a URI whose last segment is that id in decimal. A refused insert leaves the table unchanged and answers the refusal: null, or the platform's `content://sms/0` |
| Provider.SmsProvider.Update | app/src/main/java/com/example/smsviewer/MainActivity.kt:388-393 | for the default SMS app the table becomes `Updated` and the count is 1 exactly when a row was hit; for any other app the platform refuses, so the table is unchanged and the count is 0 |
| Provider.SmsProvider.Delete | app/src/main/java/com/example/smsviewer/SmsDetailActivity.kt:204-208 | the table becomes `Removed`, and the count is 1 exactly when a row was hit |
| Text.ToLongOrNull | app/src/main/java/com/example/smsviewer/ComposeActivity.kt:127 | a parsed value lies in the 64-bit range, and only a numeral (digits, or a sign followed by at least one digit) parses; anything else gives null |
| Text.DecimalRoundTrip | app/src/main/java/com/example/smsviewer/ComposeActivity.kt:127 | `toLongOrNull` reads a decimal numeral back exactly when its value fits in 64 bits |
| Text.SignedDecimalRoundTrip | app/src/main/java/com/example/smsviewer/ComposeActivity.kt:127 | a numeral with a leading "-" or "+" reads back with its sign exactly when the value fits in 64 bits |
| Text.NonDigitIsNull | app/src/main/java/com/example/smsviewer/ComposeActivity.kt:127 | a character that is not a digit, other than a leading sign, makes the parse give null |
| Text.BareSignIsNull | app/src/main/java/com/example/smsviewer/ComposeActivity.kt:127 | a one-character string parses exactly when it is a digit, so a sign alone gives null |
| Text.TrimEmptyIffBlank | app/src/main/java/com/example/smsviewer/ComposeActivity.kt:99-119 | trimming leaves nothing exactly when the string is blank |
| Text.Utf16Length | app/src/main/java/com/example/smsviewer/ContactHelper.kt:37 | `length` counts UTF-16 code units: at least one and at most two per character, exactly one per character when none lies outside the Basic Multilingual Plane, and two for a lone supplementary character |
| Text.IndexOf | app/src/main/java/com/example/smsviewer/ComposeActivity.kt:112 | the first occurrence of a character, or none exactly when the character is absent |
| Text.SplitTokensOccur | app/src/main/java/com/example/smsviewer/ContactHelper.kt:27 | every token of `split(" ")` occurs in the string it came from |
| Sorting.SortSorted | app/src/main/java/com/example/smsviewer/MainActivity.kt:175 | under a strict weak order the sort's result is ordered. `Sorting.Sort` itself keeps the multiset of elements |
| Sorting.SortStable | app/src/main/java/com/example/smsviewer/ContactHelper.kt:103-105 | elements the order cannot tell apart keep their input order |
| Sorting.SortKeepsKeysDistinct | app/src/main/java/com/example/smsviewer/ContactHelper.kt:103 | sorting keeps distinct keys distinct |
| Contacts.NormalizedOrRaw | app/src/main/java/com/example/smsviewer/ContactHelper.kt:14 | the normalized number when the normalizer gives one, otherwise the raw number |
| Contacts.NewContact | app/src/main/java/com/example/smsviewer/ContactHelper.kt:8-14 | a contact keeps id, name and number, has display string name + " (" + number + ")", and its normalized number is derived from its number |
| Contacts.Matches | app/src/main/java/com/example/smsviewer/ContactHelper.kt:16-31 | a contact whose number or normalized number contains the query, or whose name contains it ignoring case, matches. `Contacts.MatchesWithoutTokens` gives the converse |
| Contacts.DisplayStringShowsNameAndNumber | app/src/main/java/com/example/smsviewer/ContactHelper.kt:12 | the display string starts with the name, followed by the number in parentheses |
| Contacts.MatchesWithoutTokens | app/src/main/java/com/example/smsviewer/ContactHelper.kt:16-31 | `matches` holds exactly when the number or normalized number contains the query as typed, or the name contains it ignoring case. The name-token clause never changes the answer |
| Contacts.Put | app/src/main/java/com/example/smsviewer/ContactHelper.kt:92 | insertion-ordered map: a new key goes last, a present key keeps its place, and keys stay unique |
| Contacts.Step | app/src/main/java/com/example/smsviewer/ContactHelper.kt:80-93 | one cursor row skips a null name or number, never removes an entry, changes at most its own number's entry, only adds numbers it hits, and leaves a present number alone unless it is a mobile row |
| Contacts.Collect | app/src/main/java/com/example/smsviewer/ContactHelper.kt:64-95 | after the cursor loop, every entry sits under its own normalized number and matches the query |
| Contacts.CollectPrefersMobile | app/src/main/java/com/example/smsviewer/ContactHelper.kt:80-93 | a number is in the map exactly when some named, numbered, matching row normalizes to it. The entry kept is the last matching mobile row for that number if there is one, otherwise the first matching row |
| Contacts.StrLessTotal | app/src/main/java/com/example/smsviewer/ContactHelper.kt:105 | name comparison is total on distinct strings |
| Contacts.RankIsStrictWeakOrder | app/src/main/java/com/example/smsviewer/ContactHelper.kt:103-105 | the three-key comparator (exact match, prefix match, name, with false before true) is a strict weak order |
| Contacts.Search | app/src/main/java/com/example/smsviewer/ContactHelper.kt:35-106 | a query shorter than 2 UTF-16 code units gives nothing. Otherwise the result is a permutation of the map's values |
| Contacts.SupplementaryCharIsSearched | app/src/main/java/com/example/smsviewer/ContactHelper.kt:37 | a query of one character outside the Basic Multilingual Plane has length 2, so it is searched rather than refused |
| Contacts.SearchProperties | app/src/main/java/com/example/smsviewer/ContactHelper.kt:35-106 | a query shorter than 2 UTF-16 code units gives nothing. Every suggestion matches, no normalized number appears twice, and the list is in rank order |
| Contacts.ExactMatchesFirst | app/src/main/java/com/example/smsviewer/ContactHelper.kt:103 | a name equal to the query (ignoring case) is never ranked below one that is not |
| Contacts.PrefixMatchesNext | app/src/main/java/com/example/smsviewer/ContactHelper.kt:103-104 | among names with the same exactness, one the query starts is never ranked below one it does not |
| Contacts.SearchKeepsMapOrderOnTies | app/src/main/java/com/example/smsviewer/ContactHelper.kt:103-105 | contacts with equal rank keys keep the map's first-insertion order |
| Contacts.SearchContacts | app/src/main/java/com/example/smsviewer/ContactHelper.kt:35-106 | the cursor loop with the insertion-ordered map, followed by the ranking, gives the specified result and its four properties |
| Compose.ExtractNumber | app/src/main/java/com/example/smsviewer/ComposeActivity.kt:111-115 | without both brackets the recipient is used unchanged. With both, the result holds no ")" |
| Compose.ExtractNumberBetweenBrackets | app/src/main/java/com/example/smsviewer/ComposeActivity.kt:111-113 | with both brackets, the number is the text right after the first "(" up to the next ")", or to the end when none follows |
| Compose.AfterOpenBracket | app/src/main/java/com/example/smsviewer/ComposeActivity.kt:112 | in a display string whose name has no "(", `substringAfter("(")` leaves the number followed by ")" |
| Compose.BeforeCloseBracket | app/src/main/java/com/example/smsviewer/ComposeActivity.kt:112 | for a number without ")", `substringBefore(")")` of the number and ")" gives the number back |
| Compose.ExtractFromDisplayString | app/src/main/java/com/example/smsviewer/ComposeActivity.kt:111-113 | extracting from a display string gives back the contact's number when the name has no "(" and the number has no ")" |
| Compose.EmptyBracketsPassValidation | app/src/main/java/com/example/smsviewer/ComposeActivity.kt:99-119 | "Name ()" passes the blank check, yet the trimmed number it yields is empty |
| Compose.MessageIdFromUri | app/src/main/java/com/example/smsviewer/ComposeActivity.kt:127 | the id is -1 unless the URI and its last segment exist and that segment is a numeral, and it always lies in the 64-bit range |
| Compose.NonNumericSegmentGivesNoId | app/src/main/java/com/example/smsviewer/ComposeActivity.kt:127 | a last segment with a non-digit in it, other than a leading sign, gives the id -1 |
| Compose.InsertedIdReadsBack | app/src/main/java/com/example/smsviewer/ComposeActivity.kt:126-127 | the id parsed from the insert's answer is the id the row was stored under |
| Compose.PendingRow | app/src/main/java/com/example/smsviewer/ComposeActivity.kt:118-124 | the stored row is of type sent, with status pending, the trimmed address, the body and the time |
| Compose.FailedInsertReportsAreDropped | app/src/main/java/com/example/smsviewer/ComposeActivity.kt:127-132 | after an insert answered with null, the delivery report carries id -1, which the receiver ignores |
| Compose.PlanDispatch | app/src/main/java/com/example/smsviewer/ComposeActivity.kt:142-156 | more than one segment gives a multipart send with one delivery intent per segment, all the same intent. Otherwise the whole message goes as a single send |
| Compose.RepeatIntent | app/src/main/java/com/example/smsviewer/ComposeActivity.kt:143-146 | the loop yields exactly n copies of the intent |
| Compose.ComposeScreen.constructor | app/src/main/java/com/example/smsviewer/ComposeActivity.kt:62-63 | the recipient field holds the prefilled recipient and nothing is selected |
| Compose.ComposeScreen.OnRecipientEdited | app/src/main/java/com/example/smsviewer/ComposeActivity.kt:82-84 | typing in the recipient field forgets the picked suggestion and clears that field's error; the message field and its error are kept |
| Compose.ComposeScreen.OnMessageEdited | app/src/main/java/com/example/smsviewer/ComposeActivity.kt:97 | the message field holds the typed text and its error is cleared; the recipient side is kept |
| Compose.ComposeScreen.OnSuggestionPicked | app/src/main/java/com/example/smsviewer/ComposeActivity.kt:87-91 | after a pick the field holds the display string, and the selection has already been cleared again by the watcher; the errors are kept |
| Compose.ComposeScreen.Recipient | app/src/main/java/com/example/smsviewer/ComposeActivity.kt:96 | the picked contact's number when a suggestion is selected, otherwise the field's text |
| Compose.ComposeScreen.SendMessage | app/src/main/java/com/example/smsviewer/ComposeActivity.kt:95-163 | a blank recipient is rejected first, then a blank message, both before any write, and each sets only its own field error. Otherwise both error fields keep their values, and the store-and-send step runs (`Compose.StoreAndSend`). Only a send the radio accepted closes the screen |
| Compose.IdAfterInsert | app/src/main/java/com/example/smsviewer/ComposeActivity.kt:126-127 | an accepted row's id is the id the reports carry (when it fits in 64 bits; otherwise -1). A refusal answered with null gives -1, and the platform's denial gives 0 |
| Compose.StoreAndSend | app/src/main/java/com/example/smsviewer/ComposeActivity.kt:109-162 | the pending row goes into the store under the next id (only when the provider accepts writes) before the dispatch. The dispatch goes to the trimmed number, with reports carrying the id read back. The send fails when the radio fails or the destination is empty, and a failed send does not undo the stored row |
| Compose.EmptyBracketsStoredThenFail | app/src/main/java/com/example/smsviewer/ComposeActivity.kt:109-162 | for "Name ()" the pending row is stored with an empty address, and the send then fails |
| Compose.DeniedInsertReportsChangeNothing | app/src/main/java/com/example/smsviewer/ComposeActivity.kt:126-132 | when the platform denies the insert, the reports carry id 0. They pass the receiver's -1 guard, but no row has id 0, so the table is unchanged |
| DeliveryReports.ReportedStatus | app/src/main/java/com/example/smsviewer/DeliveryReportReceiver.kt:19-33 | OK gives COMPLETE, the four error codes give FAILED, anything else gives nothing, and never PENDING |
| DeliveryReports.StatusValues | app/src/main/java/com/example/smsviewer/DeliveryReportReceiver.kt:39-45 | the values carry the status and no READ, and carry the current time as `DATE_SENT` exactly for COMPLETE |
| DeliveryReports.AfterReport | app/src/main/java/com/example/smsviewer/DeliveryReportReceiver.kt:13-52 | the table keeps its ids. It is unchanged when the early returns are taken or the code is unknown. No row except the one the report names changes |
| DeliveryReports.ReportTouchesOnlyStatusColumns | app/src/main/java/com/example/smsviewer/DeliveryReportReceiver.kt:39-52 | a report changes only the STATUS and `DATE_SENT` columns, and only of the row it names |
| DeliveryReports.NoIdChangesNothing | app/src/main/java/com/example/smsviewer/DeliveryReportReceiver.kt:14-17 | without a context, an intent or a message id, nothing changes |
| DeliveryReports.OkMarksDelivered | app/src/main/java/com/example/smsviewer/DeliveryReportReceiver.kt:20-44 | OK sets STATUS to COMPLETE and `DATE_SENT` to now |
| DeliveryReports.ErrorMarksFailed | app/src/main/java/com/example/smsviewer/DeliveryReportReceiver.kt:25-42 | each error code sets STATUS to FAILED and keeps `DATE_SENT` |
| DeliveryReports.UnknownCodeChangesNothing | app/src/main/java/com/example/smsviewer/DeliveryReportReceiver.kt:19-33 | any other code leaves the table unchanged |
| DeliveryReports.FailureAfterDeliveryOverwrites | app/src/main/java/com/example/smsviewer/DeliveryReportReceiver.kt:39-52 | a failure after a delivery overwrites COMPLETE with FAILED and keeps the earlier stamp |
| DeliveryReports.RepeatedOkRestamps | app/src/main/java/com/example/smsviewer/DeliveryReportReceiver.kt:39-52 | a second OK only moves the stamp to the later time |
| DeliveryReports.OnReceive | app/src/main/java/com/example/smsviewer/DeliveryReportReceiver.kt:13-37 | when the platform allows the write the table becomes `AfterReport`, otherwise it is unchanged; a refresh is sent exactly when the early returns were passed, whether or not the code was known or the write allowed |
| MainScreen.ContactName | app/src/main/java/com/example/smsviewer/MainActivity.kt:226-238 | the first lookup name, or null exactly when the lookup finds none |
| MainScreen.ToMessage | app/src/main/java/com/example/smsviewer/MainActivity.kt:194-219 | `isSent` is the source collection. Received rows get status 0 and delivery time 0, while sent rows take STATUS and `DATE_SENT`. Read holds exactly when READ is 1 |
| MainScreen.Loaded | app/src/main/java/com/example/smsviewer/MainActivity.kt:191-224 | one record per cursor row, in cursor order, and none for a null cursor |
| MainScreen.ReceivedRecordsReadDelivered | app/src/main/java/com/example/smsviewer/MainActivity.kt:198-203 | every received record counts as delivered and shows no delivery icon |
| MainScreen.LoadMessages | app/src/main/java/com/example/smsviewer/MainActivity.kt:179-224 | the cursor's records are appended, in order, to the list passed in |
| MainScreen.NewerFirstIsStrictWeakOrder | app/src/main/java/com/example/smsviewer/MainActivity.kt:175 | descending by date is a strict weak order |
| MainScreen.Timeline | app/src/main/java/com/example/smsviewer/MainActivity.kt:166-177 | the timeline holds exactly the inbox records and the sent records, as a multiset |
| MainScreen.TimelineOrder | app/src/main/java/com/example/smsviewer/MainActivity.kt:166-177 | the timeline is a permutation of the inbox records followed by the sent ones. Dates never increase along it. Records with equal dates keep inbox-before-sent and cursor order |
| MainScreen.TiedMeansSameDate | app/src/main/java/com/example/smsviewer/MainActivity.kt:175 | two records tie under the sort exactly when their dates are equal |
| MainScreen.LoadAllMessages | app/src/main/java/com/example/smsviewer/MainActivity.kt:166-177 | the adapter holds the timeline, unfiltered, and its filtered list is a subsequence of its messages |
| MainScreen.MarkMessageAsRead | app/src/main/java/com/example/smsviewer/MainActivity.kt:373-398 | nothing happens unless this is the default SMS app. Otherwise READ is set to 1 on the id through Sent or Inbox, chosen by `isSent`, and a reload follows |
| MainScreen.OnMessageClick | app/src/main/java/com/example/smsviewer/MainActivity.kt:40-45 | only a received unread message is marked read, always through Inbox. The detail screen gets the message's extras |
| Detail.CreateIntent | app/src/main/java/com/example/smsviewer/SmsDetailActivity.kt:46-57 | every field of the message is put as an extra, and a null contact name stays absent |
| Detail.ReadExtras | app/src/main/java/com/example/smsviewer/SmsDetailActivity.kt:86-93 | missing extras default to id -1, sender "Unknown", body "", and 0 or false for the rest |
| Detail.ExtrasRoundTrip | app/src/main/java/com/example/smsviewer/SmsDetailActivity.kt:46-93 | opening a message from the list shows that message's own fields |
| Detail.MissingStatusReadsDelivered | app/src/main/java/com/example/smsviewer/SmsDetailActivity.kt:91 | a missing status extra defaults to 0, which is COMPLETE |
| Detail.ShownName | app/src/main/java/com/example/smsviewer/SmsDetailActivity.kt:128 | the contact name, otherwise the sender |
| Detail.LabelWord | app/src/main/java/com/example/smsviewer/SmsDetailActivity.kt:127 | "To" exactly for sent messages, "From" exactly for received ones |
| Detail.StatusLine | app/src/main/java/com/example/smsviewer/SmsDetailActivity.kt:137-157 | a status line is shown exactly for sent messages with status COMPLETE, PENDING or FAILED |
| Detail.DeliveredTimeShownWhenRecorded | app/src/main/java/com/example/smsviewer/SmsDetailActivity.kt:140-145 | the line reads "✓ Delivered". Exactly when the delivery time is positive, "\nDelivered: " and the formatted time follow |
| Detail.StatusLineMatchesListIcon | app/src/main/java/com/example/smsviewer/SmsDetailActivity.kt:137-157 | the detail status line and the list row's delivery icon agree on every message, kind for kind |
| Detail.ClipboardOpensWithListLabel | app/src/main/java/com/example/smsviewer/SmsDetailActivity.kt:225-228 | the copied text is the list label, then "\nPhone: " and the address, then "\nMessage: " and the body |
| Detail.ClipboardText | app/src/main/java/com/example/smsviewer/SmsDetailActivity.kt:225-228 | the copied text starts with the label word and shown name, then the phone line, then "Message: ", ends with the whole body, and is exactly as long as that header plus the body |
| Detail.DetailScreen.constructor | app/src/main/java/com/example/smsviewer/SmsDetailActivity.kt:86-93 | the screen's fields are the extras with their defaults |
| Detail.DetailScreen.MarkReadOnOpen | app/src/main/java/com/example/smsviewer/SmsDetailActivity.kt:98-124 | a received message with a known id is marked read through Inbox, and a refresh sent, exactly when this is the default SMS app. Otherwise nothing changes |
| Detail.DetailScreen.RequestDelete | app/src/main/java/com/example/smsviewer/SmsDetailActivity.kt:178-223 | the request is refused when this is not the default app, stops when the dialog is cancelled, and is refused for id -1. Otherwise the row is deleted through its own collection, and the result is success, with the screen closed and a list refresh requested, exactly when a row went |

## Left out

- Cursor and content-provider I/O. Query results are input sequences. The provider's own ordering (`DATE DESC`), the SQL `LIKE` pre-selection of the contact query, and failing or throwing queries are not modelled. A null cursor is modelled where the code checks for it.
- Platform functions are parameters: `PhoneNumberUtils.normalizeNumber`, `SmsManager.divideMessage`, the phone lookup, the clock and date formatting.
- The default-SMS-app check and the confirmation dialog are boolean parameters. Permission requests, role dialogs, menus, colours and Toasts are not modelled.
- The radio's failure is one boolean, together with the rejection of an empty destination. The exception message, and exceptions thrown by the insert or the delete, are not modelled.
- The PendingIntent request code (`messageId.toInt()`, a truncating conversion) and its flags are not modelled.
- Broadcast delivery is not modelled. The receivers call `sendBroadcast` and the main screen listens locally, so whether a refresh arrives is a platform matter. The model only records that one is requested. `SmsReceiver.kt` is not part of this model.
- Concurrency between delivery reports and reloads is not modelled.
- Text.Lower: lower-cases ASCII letters only, character by character. Kotlin's `lowercase()` also maps other scripts and can change a string's length.
- Contacts.StrLess: compares Unicode scalar values. Kotlin's `compareTo` compares UTF-16 code units, so the order of characters outside the Basic Multilingual Plane can differ.
- Text.ToLongOrNull: accepts only ASCII digits. Kotlin also accepts other Unicode decimal digits.
- Compose.ComposeScreen.OnSuggestionPicked: keeps both field errors. The app sets errors and never clears them; typing clears a field's error because a `TextView` drops its error when a key event changes its text. The model assumes that setting the text from the program does not clear it.
- The pending row's READ is 1, because the platform's provider marks every row outside the inbox read on insert; the app consults `isRead` only for received messages. `DATE_SENT`, which the insert does not write, is 0 as the table defaults it.
- The in-place `sortByDescending` and `sortedWith` are modelled as a sort function on sequences, so in-place update and aliasing of the list are not captured.
- Ids and timestamps are unbounded integers. Only the parse of the inserted URI checks the 64-bit range.
