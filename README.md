# XDeleter, modelled in Dafny

XDeleter is a web application that bulk-deletes a user's posts on X. The user
pastes two session cookies (`auth_token`, `ct0`) into a form. The application
fetches the user's timeline through a server route, normalises it into a list
of posts typed as original, repost or reply, and lets the user filter and
select up to 25 posts at a time. A second server route then deletes the
selected posts one by one. Free accounts may delete 50 posts per calendar day.
The day's count lives in the account's profile row and is reset lazily: the
stored date is compared with today's. Pro and lifetime accounts with an active
status are unlimited.

This project models that core and proves properties of it:

| file | module | what it models |
|---|---|---|
| `common.dfy` | `Common` | `Option`/`Result`, credentials, JavaScript truthiness of strings, an order-preserving filter with its subsequence property |
| `timeline.dfy` | `Timeline` | the timeline route: post classification, the defensive walk over instructions and entries (`parseTweets`, as a loop proved against a fold), and the `POST` handler |
| `delete_route.dfy` | `DeleteRoute` | the delete route: validation, the sequential delete loop, the daily ledger update, and the `POST` handler |
| `auth_context.dfy` | `AuthContext` | the quota ledger (`canDeleteTweets`, `isPro`, `isLifetime`, `isPaid`) and the provider's state updates |
| `dashboard.dfy` | `Dashboard` | the dashboard's tier badge and today's usage |
| `tweet_list.dfy` | `TweetList` | the selection component: type filters, capped selection, select-all, hand-off, views |
| `session_api.dfy` | `SessionApi` | what both session pages share: request bodies, failure messages, and the list update after a delete |
| `app_page.dfy` | `AppPage` | the signed-in page, with the quota clamp and `maxSelection` |
| `home_page.dfy` | `HomePage` | the public page, without a quota, and its step transitions |
| `auth_form.dfy` | `AuthForm` | the credentials form: JavaScript `trim` and the submit guard |
| `register.dfy` | `Register` | the sign-up form: password checks and the form state |

Remote calls become function parameters ("oracles"):
- the delete call is `remote(k, id)`, the outcome of the k-th call;
- the viewer lookup and the timeline fetch each answer with a value or an error message;
- the profile store answers with a row and an optional error;
- `signUp` answers with an optional error message;
- each page's `fetch` to a route is a function from request body to the route's response.

`today` is a string parameter. React state hooks are the fields of a class
(`AuthState`, `TweetListState`, `AppSession`, `HomeSession`,
`RegisterForm`). Their handlers are methods that state the whole new state.

Some behaviours of the code are reproduced as written, not corrected:
- `isPaid` counts a lifetime tier as paid whatever its status, but
  `canDeleteTweets` is unlimited only for an active status. So an inactive
  lifetime account skips the page's clamp while the free quota still applies
  (`AuthContext.LifetimeInactivePaidButLimited`,
  `AppPage.LifetimeInactiveBypassesClamp`).
- After a successful batch both pages drop every submitted post from the list,
  including those whose delete failed. The totals move only by the route's
  `deleted` count (`SessionApi.FailedIdsDroppedFromList`,
  `SessionApi.ListShrinksBySubmission`).
- Loading more with a null cursor fetches the first page again
  (`SessionApi.FalsyCursorRefetchesFirstPage`).
- With no profile loaded, the dashboard shows 50 remaining while
  `canDeleteTweets` allows nothing (`Dashboard.DisagreesWithQuota`).
- On the public page, the landing step offers only links to other pages, so
  its own credentials form and list are never reached from the initial state
  (`HomePage.LandingIsFinal`).

Two further behaviours of the code worth noting:
- When `parseTweets` hits an exception part-way, it keeps both the posts and
  the cursor collected so far (`Timeline.CrashKeepsCollected`).
- The 500 ms pause between deletions sits inside the `try`, after the
  classification, so a call that throws skips it (see the comment in
  `DeleteRoute.DeleteBatch`).

## Model

| member | source | states |
|---|---|---|
| Common.Filter | src/components/TweetList.jsx:25-30 | keeps exactly the elements that satisfy the predicate and is never longer than the input |
| Common.FilterAppend | src/components/TweetList.jsx:25-30 | filtering a concatenation is the concatenation of the filtered parts |
| Common.FilterExtremes | src/components/TweetList.jsx:25-30 | a predicate true everywhere keeps the whole list; one false everywhere keeps nothing |
| Common.FilterIsSubsequence | src/components/TweetList.jsx:25-30 | the filtered list is an order-preserving subsequence of the input |
| Common.SubsequenceMembers | src/components/TweetList.jsx:25-30 | helper: every element of a subsequence is an element of the sequence |
| Common.FilterAgreeing | src/components/TweetList.jsx:25-30 | helper: two predicates that agree on the list filter it alike |
| Timeline.Unwrap | src/app/api/tweets/route.js:142 | the inner record when the result wraps one, the result itself otherwise |
| Timeline.IsRetweet | src/app/api/tweets/route.js:147 | a repost reference alone, or a `full_text` starting with "RT @" alone, makes a repost; without a reference, the text must start with the prefix |
| Timeline.IsReply | src/app/api/tweets/route.js:148 | a non-empty in-reply-to status id alone, or a non-empty in-reply-to user id alone, makes a reply; with both ids absent or empty it is not one |
| Timeline.IsQuote | src/app/api/tweets/route.js:149 | a quoted record, a non-empty quoted id, or the quote flag, each alone, makes a quote; with none of them (the id absent or empty) it is not one |
| Timeline.Classify | src/app/api/tweets/route.js:147-156 | exactly one type per post: repost iff a repost or quote marker is present; reply iff neither is present but a reply marker is; original otherwise |
| Timeline.RtPrefixIsRetweet | src/app/api/tweets/route.js:147 | a text starting with "RT @" is a repost, even without a repost reference and whatever reply markers it has |
| Timeline.ItemText | src/app/api/tweets/route.js:160 | the text is `full_text` when non-empty, else `text` when non-empty, else empty; empty iff both are empty or absent |
| Timeline.EntryItem | src/app/api/tweets/route.js:137-171 | only item entries contribute a post, and an item entry contributes one iff it has a result whose unwrapped record has a legacy payload |
| Timeline.Step | src/app/api/tweets/route.js:137-175 | one entry keeps what was collected, adds a post iff it contributes one, and moves the cursor only when it is a bottom-cursor entry |
| Timeline.WalkEntries | src/app/api/tweets/route.js:136-176 | the entry walk never drops a collected post and stops early only at a null entry |
| Timeline.WalkInstructions | src/app/api/tweets/route.js:134-178 | the instruction walk never drops a collected post and stops early only at a null instruction or an instruction holding a null entry |
| Timeline.ParseTimeline | src/app/api/tweets/route.js:127-184 | with no instructions, or a null first instruction, the page is empty with a null cursor |
| Timeline.ParseTweets | src/app/api/tweets/route.js:127-184 | the nested loops, with the caught exception as a labelled break, compute exactly the fold `ParseTimeline` |
| Timeline.UntilNull | src/app/api/tweets/route.js:131-181 | the entries before the first null entry: a prefix with no null entry, the whole list when there is none |
| Timeline.ItemsOfAppend | src/app/api/tweets/route.js:158 | the posts of a concatenation of entries are the posts of each part, in order |
| Timeline.BottomCursorsAppend | src/app/api/tweets/route.js:173-174 | the bottom cursors of a concatenation are those of each part, in order |
| Timeline.LastBottomCursorAppend | src/app/api/tweets/route.js:173-174 | the last bottom cursor of a concatenation is found by scanning the parts in turn |
| Timeline.StepMeaning | src/app/api/tweets/route.js:137-175 | one entry appends its post, if any, and replaces the cursor with its bottom-cursor value, if any |
| Timeline.WalkEntriesMeaning | src/app/api/tweets/route.js:136-176 | the walk over an entry list stops iff the list holds a null entry, and keeps the posts and the last bottom cursor of the entries before it |
| Timeline.WalkInstructionsMeaning | src/app/api/tweets/route.js:134-178 | the walk over the instructions keeps exactly the posts of the reached entries, in entry order, and the last bottom cursor among them |
| Timeline.ParseTimelineMeaning | src/app/api/tweets/route.js:127-184 | the result is the posts of the reached entries, in order, and the last reached bottom cursor, or null if there is none |
| Timeline.WalkInstructionsAppend | src/app/api/tweets/route.js:134-181 | walking a concatenation walks the second part from where the first stopped, unless the first ended in an exception |
| Timeline.CrashKeepsCollected | src/app/api/tweets/route.js:179-183 | an exception part-way returns the posts and cursor collected before it; nothing after it is read |
| Timeline.OtherInstructionIgnored | src/app/api/tweets/route.js:135 | an instruction other than `TimelineAddEntries` can be removed without changing the result |
| Timeline.TombstoneSkipped | src/app/api/tweets/route.js:138-145 | an item entry with no result or no legacy payload can be removed without changing the walk |
| Timeline.SentCursor | src/app/api/tweets/route.js:78-80 | the cursor is put in the query iff it is truthy, and then unchanged |
| Timeline.TweetsResponseFor | src/app/api/tweets/route.js:186-218 | 400 "Missing credentials" iff the body is read and a token is missing or empty; a 500 always carries a non-empty message, and unreadable JSON is a 500 |
| Timeline.HandleTweetsRequest | src/app/api/tweets/route.js:186-218 | the handler answers exactly `TweetsResponseFor`: 500 for unreadable JSON or a failed remote call, 400 for missing credentials, else the parsed page with the viewer's total and name |
| Timeline.MissingCredentialsRejected | src/app/api/tweets/route.js:190-195 | a missing or empty token is answered 400 "Missing credentials", whatever the remote would answer |
| Timeline.FalsyCursorFetchesFirstPage | src/app/api/tweets/route.js:78-80 | a null or empty cursor gets the same answer as no cursor |
| DeleteRoute.Failures | src/app/api/delete/route.js:62-76 | the failed ids are no more than the ids and are all among them |
| DeleteRoute.SucceededCount | src/app/api/delete/route.js:59-77 | the number of successful calls is at most the number of ids |
| DeleteRoute.DeleteBatch | src/app/api/delete/route.js:59-77 | one call per id in input order; `deleted` and `errors` are exactly `SucceededCount` and `Failures` |
| DeleteRoute.EveryIdCountedOnce | src/app/api/delete/route.js:59-77 | every id is counted exactly once: `deleted + \|errors\| == \|tweetIds\|` |
| DeleteRoute.FailuresAreFailedCalls | src/app/api/delete/route.js:62-76 | `errors` is the subsequence of the ids at increasing positions, and a position is among them iff its call returned false or threw |
| DeleteRoute.UniformBatches | src/app/api/delete/route.js:62-76 | an all-successful batch reports no error; an all-failed batch reports every id and deletes none |
| DeleteRoute.NewDailyCount | src/app/api/delete/route.js:96-97 | on a new day, or with no stored row, the count is the batch's; on the stored day it is the stored count (null as 0) plus the batch's |
| DeleteRoute.UsageComposes | src/app/api/delete/route.js:96-104 | two same-day batches charge the ledger as one batch of their sum |
| DeleteRoute.QuotaConsumedByWrite | src/app/api/delete/route.js:96-104 | for an account without an unlimited quota, the write lowers the same-day remainder of `canDeleteTweets` by the number deleted, down to 0 |
| DeleteRoute.Post | src/app/api/delete/route.js:41-124 | the response depends only on the body and the remote outcomes; the remote is called only for a valid batch, with exactly its ids; the ledger is written iff something was deleted and a user is signed in, with today's date and `NewDailyCount` |
| DeleteRoute.ValidBatch | src/app/api/delete/route.js:45-57 | a request with both tokens and a non-empty id array reaches the batch whatever the remote answers; any other request gets a 400 |
| DeleteRoute.ErrorsField | src/app/api/delete/route.js:113-116 | the `errors` field is omitted iff no id failed, and otherwise is the whole failure list |
| DeleteRoute.DeleteResponseFor | src/app/api/delete/route.js:41-124 | a 500 iff the body is unreadable, with a non-empty message; a 400 carries one of the two validation messages; a result deletes at most the ids sent |
| DeleteRoute.MissingCredentialsFirst | src/app/api/delete/route.js:45-50 | missing credentials are answered 400 "Missing credentials" before the ids are looked at |
| DeleteRoute.NoIdsRejected | src/app/api/delete/route.js:52-57 | with credentials, an absent, non-array or empty `tweetIds` is answered 400 "No tweet IDs provided" |
| DeleteRoute.BatchResponseAccounts | src/app/api/delete/route.js:113-116 | a valid batch gets a result whose `deleted` and `errors` account for every id, with `errors` omitted iff every id was deleted |
| AuthContext.IsPro | src/context/AuthContext.js:115 | an active pro tier always gets `{allowed: true, remaining: Infinity}` |
| AuthContext.IsLifetime | src/context/AuthContext.js:116 | a lifetime tier has a profile, and its quota is unlimited iff its status is active |
| AuthContext.IsPaid | src/context/AuthContext.js:117-118 | a paid account has a profile, and an unpaid one always has a finite quota |
| AuthContext.CanDeleteTweets | src/context/AuthContext.js:84-104 | deleting is allowed iff the remainder is unlimited or positive, and a finite remainder is never negative |
| AuthContext.IsPaidIsProOrLifetime | src/context/AuthContext.js:115-118 | `isPaid == isPro \|\| isLifetime` |
| AuthContext.NoProfileNoQuota | src/context/AuthContext.js:85 | with no profile, `{allowed: false, remaining: 0}` |
| AuthContext.ActivePaidTierUnlimited | src/context/AuthContext.js:88-92 | an active pro or lifetime tier is unlimited, whatever the stored count |
| AuthContext.NewDayFullAllotment | src/context/AuthContext.js:98-100 | on a day other than the stored one, `{allowed: true, remaining: 50}` |
| AuthContext.SameDayRemainder | src/context/AuthContext.js:102-103 | on the stored day the remainder is `max(0, 50 - used)`, allowed iff `50 - used > 0`, and a missing count counts as 0 |
| AuthContext.RemainderBounded | src/context/AuthContext.js:99-103 | a finite remainder lies in [0, 50] when the stored count is not negative |
| AuthContext.UnlimitedImpliesPaid | src/context/AuthContext.js:88-92 | an unlimited quota implies `isPaid` |
| AuthContext.LifetimeInactivePaidButLimited | src/context/AuthContext.js:117-118 | a lifetime tier with an inactive status is paid, yet its quota is the free one |
| AuthContext.AuthState.constructor | src/context/AuthContext.js:9-11 | no user, no profile, loading |
| AuthContext.AuthState.FetchProfile | src/context/AuthContext.js:14-25 | the profile is replaced only when the store answers with data and no error; the data is returned either way |
| AuthContext.AuthState.SignOut | src/context/AuthContext.js:69-76 | user and profile are cleared iff the provider reports no error; the error is handed back |
| AuthContext.AuthState.RefreshProfile | src/context/AuthContext.js:78-82 | without a user nothing changes; with one, the profile is refetched as `FetchProfile` does |
| Dashboard.TierBadge | src/app/dashboard/page.js:47-55 | Lifetime iff the tier is lifetime, whatever the status; Pro iff the tier is pro, the status active and the tier not lifetime |
| Dashboard.BadgeMatchesPaid | src/app/dashboard/page.js:47-55 | the badge is not Free iff the account is paid |
| Dashboard.DeletedToday | src/app/dashboard/page.js:58 | the stored count (null as 0) on the stored day, else 0 |
| Dashboard.RemainingToday | src/app/dashboard/page.js:59 | 'Unlimited' iff paid; otherwise a non-negative count |
| Dashboard.RemainingTodayBounded | src/app/dashboard/page.js:59 | the finite figure lies in [0, 50] when the stored count is not negative |
| Dashboard.AgreesWithQuotaWhenFree | src/app/dashboard/page.js:57-59 | for a loaded, unpaid profile the figure equals `canDeleteTweets().remaining` |
| Dashboard.DisagreesWithQuota | src/app/dashboard/page.js:57-59 | with no profile the dashboard shows 50 while the quota is 0; an inactive lifetime tier shows 'Unlimited' while the free quota applies |
| TweetList.FilteredTweets | src/components/TweetList.jsx:25-30 | the posts whose type is shown, as an order-preserving subsequence of the list |
| TweetList.FilteredTweetsAppend | src/components/TweetList.jsx:25-30 | filtering keeps the relative order of the posts it keeps |
| TweetList.Flip | src/components/TweetList.jsx:33 | the named filter is inverted and the other two are unchanged |
| TweetList.AllOnShowsEverything | src/components/TweetList.jsx:18-30 | with every filter on, the list is shown whole |
| TweetList.FlipKeepsOneOn | src/components/TweetList.jsx:32-40 | a toggle flips exactly the named filter, and it would leave all three off only when turning off the one filter that is on |
| TweetList.ToggledSelection | src/components/TweetList.jsx:46-56 | a present id leaves; an absent id joins only while the size is below `maxSelection` |
| TweetList.ToggleRespectsCap | src/components/TweetList.jsx:46-56 | toggling never takes the selection above `maxSelection` |
| TweetList.ToggleTwiceRestores | src/components/TweetList.jsx:46-56 | toggling an unselected id twice while there is room restores the selection |
| TweetList.FirstIds | src/components/TweetList.jsx:59 | the ids of exactly the first `min(n, \|s\|)` posts |
| TweetList.FilteredUnique | src/components/TweetList.jsx:25-30 | filtering keeps ids unique |
| TweetList.FirstIdsAtMost | src/components/TweetList.jsx:59 | whatever the ids, the first `n` posts have at most `min(n, \|s\|)` distinct ids |
| TweetList.FirstIdsCount | src/components/TweetList.jsx:59 | with unique ids, the first `n` posts have `min(n, \|s\|)` distinct ids |
| TweetList.SelectAllSelectsAll | src/components/TweetList.jsx:58-72 | with unique ids, select-all selects exactly `min(maxSelection, \|filtered\|)` ids, so `allSelected` holds when something is shown |
| TweetList.AllSelected | src/components/TweetList.jsx:72 | "all selected" needs a non-empty shown list and a selection no larger than the cap or the shown list, non-empty when the cap is positive |
| TweetList.SelectedTweets | src/components/TweetList.jsx:67-70 | the posts handed to the page are exactly those of the list whose id is selected, in list order |
| TweetList.SelectedTweetsBounded | src/components/TweetList.jsx:67-70 | with unique ids the hand-off holds at most as many posts as there are selected ids |
| TweetList.ViewFor | src/components/TweetList.jsx:75-283 | a non-empty list is always shown as the list; an empty list with a non-negative total never is |
| TweetList.LoadMoreOfferedIffBehind | src/components/TweetList.jsx:75-283 | load-more is offered iff the list holds fewer posts than the total; "All Done" iff the list is empty and the total is 0 |
| TweetList.TweetListState.constructor | src/components/TweetList.jsx:17-22 | empty selection, every filter on |
| TweetList.TweetListState.ToggleFilter | src/components/TweetList.jsx:32-40 | keeps a filter on; an accepted toggle flips the filter and clears the selection, a refused one changes nothing |
| TweetList.TweetListState.ToggleSelect | src/components/TweetList.jsx:46-56 | the new selection is `ToggledSelection`, a selection within the cap stays within it, and the filters keep one on |
| TweetList.TweetListState.SelectAll | src/components/TweetList.jsx:58-61 | the ids of the first `maxSelection` filtered posts, within the cap even when ids repeat, and the filters keep one on |
| TweetList.TweetListState.ListLengthChanged | src/components/TweetList.jsx:42-44 | a change of the list's length clears the selection, and the filters keep one on |
| TweetList.TweetListState.DeselectAll | src/components/TweetList.jsx:63-65 | the selection becomes empty, and the filters keep one on |
| SessionApi.AuthRequestFor | src/app/app/page.js:36-40 | the first fetch carries both tokens and no cursor |
| SessionApi.MoreRequestFor | src/app/app/page.js:119-125 | load-more carries the current cursor unchanged, and the tokens when there are credentials, none otherwise |
| SessionApi.DeleteRequestFor | src/app/app/page.js:83-90 | the delete body carries exactly the submitted ids, and without credentials it is not a valid batch |
| SessionApi.TweetsFailureMessage | src/app/app/page.js:45 | the route's non-empty error, else the fallback; non-empty whenever the fallback is |
| SessionApi.DeleteFailureMessage | src/app/app/page.js:95 | never empty; the route's non-empty error when there is one |
| SessionApi.IdsOf | src/app/app/page.js:88 | the ids of the posts, position by position |
| SessionApi.RemoveIds | src/app/app/page.js:98-99 | the posts whose id was not submitted, as an order-preserving subsequence of the list |
| SessionApi.ListShrinksBySubmission | src/app/app/page.js:98-99 | with unique ids and a submission taken from the list, the list shrinks by exactly the number submitted, whatever the route deleted |
| SessionApi.FailedIdsDroppedFromList | src/app/app/page.js:98-99 | the ids the route reports as failed are absent from the list afterwards |
| SessionApi.SessionBatchReachesRoute | src/app/app/page.js:83-90 | with non-empty tokens and a non-empty submission the route runs the batch, and `deleted` is the number of successful calls, at most the number submitted |
| SessionApi.FalsyCursorRefetchesFirstPage | src/app/app/page.js:118-124 | loading more with a null or empty cursor gets the same answer as the first fetch |
| AppPage.Submission | src/app/app/page.js:71-73 | a prefix of the selection; the whole selection when paid; otherwise at most the remainder, and fewer than selected only when exactly the remainder |
| AppPage.MaxSelection | src/app/app/page.js:248 | 25 when paid, otherwise `min(25, remaining)` |
| AppPage.NoClampWithinMaxSelection | src/app/app/page.js:71-77 | a selection of at most `maxSelection` posts is submitted whole |
| AppPage.MaxSelectionWithinQuota | src/app/app/page.js:248 | for an unpaid account `maxSelection` fits the remainder, and a positive one implies the quota allows deleting |
| AppPage.LifetimeInactiveBypassesClamp | src/app/app/page.js:71-73 | an inactive lifetime account is allowed 50 a day yet submits a larger selection unclamped |
| AppPage.AppSession.constructor | src/app/app/page.js:14-23 | the initial state: credentials step, no credentials, empty list, zero totals, no error |
| AppPage.AppSession.HandleAuth | src/app/app/page.js:31-58 | on a page: credentials, posts, total and cursor are stored and the step moves to the list; otherwise only the error is set; loading ends either way |
| AppPage.AppSession.HandleDeleteSelected | src/app/app/page.js:60-111 | a refused quota sends nothing and changes nothing but the error; otherwise the clamped submission is sent, with a notice iff it was clamped; on success submitted posts leave the list and the totals move by `deleted`; on failure only the error and `lastBatchDeleted` change; `deleting` ends false |
| AppPage.AppSession.HandleLoadMore | src/app/app/page.js:113-141 | sends the current cursor, null included; on a page appends its posts and replaces total and cursor; otherwise only the error is set |
| AppPage.AppSession.HandleReset | src/app/app/page.js:143-152 | every session field back to its initial value, with the credentials step |
| HomePage.NextStep | src/app/page.js:45-379 | the landing step is never left, and the list step is reached only by a first page loaded from the credentials step or kept until reset |
| HomePage.LandingIsFinal | src/app/page.js:13 | from the initial landing step, no sequence of events leaves it |
| HomePage.PublicBatchWithinDefaultCap | src/components/TweetList.jsx:15 | the public page passes no cap, so with unique ids a selection within the default 25 hands over at most 25 posts |
| HomePage.HomeSession.constructor | src/app/page.js:13-22 | the initial state: landing step, no credentials, empty list, zero totals, no error |
| HomePage.HomeSession.HandleBack | src/app/page.js:379 | the form's back button returns to the landing step, which is `NextStep` for `Back` on the credentials step |
| HomePage.HomeSession.HandleAuth | src/app/page.js:24-51 | as on the signed-in page; a first page loaded on the credentials step moves to `NextStep` for `FirstPageLoaded` |
| HomePage.HomeSession.HandleDeleteSelected | src/app/page.js:53-84 | the whole selection is sent; on success every submitted post leaves the list and the totals move by `deleted`; on failure only the error and `lastBatchDeleted` change |
| HomePage.HomeSession.HandleLoadMore | src/app/page.js:86-114 | as on the signed-in page |
| HomePage.HomeSession.HandleReset | src/app/page.js:116-125 | every session field back to its initial value, with the credentials step, not the landing step, which is `NextStep` for `Reset` on the list step |
| AuthForm.IsJsWhitespace | src/components/AuthForm.jsx:12 | the characters `trim` removes: within ASCII exactly space, tab, line feed, vertical tab, form feed and carriage return; never a letter or digit |
| AuthForm.LeadingSpace | src/components/AuthForm.jsx:12 | the length of the whitespace run at the start of the string |
| AuthForm.TrailingSpace | src/components/AuthForm.jsx:12 | the length of the whitespace run at the end of the string |
| AuthForm.Trim | src/components/AuthForm.jsx:12-13 | empty iff the string is all whitespace; otherwise starts and ends with a non-whitespace character |
| AuthForm.AllSpaceConcat | src/components/AuthForm.jsx:12 | helper: two whitespace-only strings concatenate to a whitespace-only string |
| AuthForm.TrimShape | src/components/AuthForm.jsx:12-13 | cutting both whitespace runs leaves an empty string iff the input is blank, else one bounded by non-whitespace |
| AuthForm.LeadingSpaceOfPadded | src/components/AuthForm.jsx:12 | whitespace before a non-whitespace character is exactly the leading run |
| AuthForm.TrailingSpaceOfPadded | src/components/AuthForm.jsx:12 | whitespace after a non-whitespace character is exactly the trailing run |
| AuthForm.TrimRemovesPadding | src/components/AuthForm.jsx:12-13 | a string bounded by non-whitespace, padded with whitespace on both sides, trims back to itself |
| AuthForm.TrimIdempotent | src/components/AuthForm.jsx:12-13 | trimming twice is trimming once |
| AuthForm.HandleSubmit | src/components/AuthForm.jsx:10-14 | nothing is submitted iff either value is blank; otherwise the trimmed values, both non-empty |
| AuthForm.SubmitDisabled | src/components/AuthForm.jsx:105 | disabled while loading; otherwise disabled iff either field is whitespace-only or empty |
| AuthForm.EnabledIffSubmits | src/components/AuthForm.jsx:105 | while not loading, the button is enabled iff a submit goes through, and the submitted values are already trimmed |
| Register.Utf16Length | src/app/register/page.js:27 | between one and two code units per character |
| Register.ValidatePassword | src/app/register/page.js:22-30 | no error iff the passwords match and are at least 6 code units long; a mismatch is reported first |
| Register.LengthCheckByCharacters | src/app/register/page.js:27-30 | six characters always pass the length check; fewer pass only with a character outside the Basic Multilingual Plane |
| Register.AllBmpCountsOnce | src/app/register/page.js:27 | a string inside the Basic Multilingual Plane is as long in code units as in characters |
| Register.RegisterForm.constructor | src/app/register/page.js:12-14 | no error, not loading, no success |
| Register.RegisterForm.HandleSubmit | src/app/register/page.js:18-42 | the provider is called iff the checks pass; a failed check shows its message; a provider error is shown with loading cleared; otherwise success with loading left set |

## Left out

- The x.com GraphQL requests (`getViewer`, `fetchTweets`, `deleteTweet`), their query and feature JSON and headers: network I/O, modelled as oracle parameters.
- The 500 ms pause between deletions, and time generally: timing cannot be expressed here.
- `toLocaleDateString` formatting of `created_at`, and the UTC date computed from the clock: `date` keeps the raw string, and `today` is a parameter.
- The Supabase clients, cookies and session middleware: the profile store, the signed-in user and `signUp` are parameters.
- Rendering, markup, styling and marketing copy. The only parts kept are the conditions that choose a view or disable a button.
- The profile read-modify-write race between sessions, the auth-state subscription and React's effect scheduling: concurrency and framework concerns. Each handler is modelled as running to completion, and the page's awaited `refreshProfile` is reported as a flag.
- The Gumroad checkout links and the refresh timer after checkout: an external payment integration.
- JSON values of the wrong type (a number as a token, a non-string id): fields are modelled as present-or-absent strings, and `tweetIds` as absent, not an array, or an array of strings.
- The exact text of the clamp notice: `Notice.Clamped` holds the remainder and the count that the message interpolates.
- Timeline.ParseTweets: the walk reads fields that the model makes optional. A wrong-typed field that makes JavaScript throw elsewhere is not modelled; only null instructions and null entries throw.
- The `console.error` logging in the routes and pages: it has no effect on any state or response.
