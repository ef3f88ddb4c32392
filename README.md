# WRITE social app: a Dafny model of its server actions, pages and client state

WRITE is a small social app. Its users post text and images, like and comment on posts,
follow each other, and become friends through friend requests. Each user may change their
username once. Persistence and authentication belong to an external backend. This project
models the logic the application itself owns:

- the server actions (`actions/*.ts`);
- the JSON follow endpoint;
- friend-set derivation and post selection on the feed and profile pages;
- the time and date helpers;
- the small client-side state machines (username form, friend button, post card, loading
  dots);
- the start-up check of the environment.

The backend is an in-memory store, the class `Store.Db`. It has one `seq` field per table
(`profiles`, `posts`, `likes`, `comments`, `follows`, `friendRequests`) and the caller of
the current request (`caller: Option<AuthUser>`). Each server action is a method over a
`Db`. It runs the source's guards in order, as a pure check function, and then updates
only the table its frame names. Each action returns `Ok`/`Err(message)` (or
`Success(value)`/`Failure(message)`) with the source's exact message texts.
`Db.Valid()` states two invariants, and every action preserves them:

- profile ids are unique;
- no friend request names the same user at both ends.

Backend queries are functions on the tables:

- `.eq`/`.or`/`.in` become filters;
- `.ilike` is `Text.ILike`;
- `.maybeSingle()` returns a row only when exactly one row matches, except for lookups by
  profile id, which find the first row with the id (see "## Left out");
- `.order("created_at", { ascending: false })` is a newest-first sort.

Parameters stand for:

- a failing write (`fault`, `uploadFault`, ...);
- the two read failures the code gives a meaning to: the availability lookup and the feed
  queries;
- generated ids and timestamps;
- `Date.now()`;
- the storage bucket's public base URL, which `getPublicUrl` puts before the path;
- the date library's formatters.

Files, one module each:

| file | module | source |
|---|---|---|
| wrappers.dfy | Wrappers | Option, Outcome, Result |
| text.dfy | Text | JavaScript string operations: `trim`, `.length`, `split`, `join`, number printing, ILIKE |
| store.dfy | Store | tables, the store class, queries, updates and deletes |
| post_query.dfy | PostQuery | the nested post query of the feed and profile pages |
| friend.dfy | FriendActions | actions/friend.ts |
| feed.dfy | FeedPage | app/feed/page.tsx |
| profile.dfy | ProfilePage | app/profile/page.tsx |
| username.dfy | UsernameActions | actions/username.ts |
| post.dfy | PostActions | actions/post.ts |
| comment.dfy | CommentActions | actions/comment.ts |
| like.dfy | LikeActions | actions/like.ts |
| follow.dfy | FollowActions | actions/follow.ts |
| follow_route.dfy | FollowRoute | app/api/follow/route.ts |
| time_ago.dfy | TimeAgo | app/components/TimeAgo.tsx |
| date_utils.dfy | DateUtils | lib/dateUtils.ts |
| username_changer.dfy | UsernameChanger | app/components/UsernameChanger.tsx |
| post_item.dfy | PostItem | app/components/PostItem.tsx |
| friend_button.dfy | FriendButton | app/components/FriendButton.tsx |
| typewriter.dfy | Typewriter | app/components/TypewriterLoading.tsx |
| env.dfy | Env | lib/env.ts |

Where the code and the behaviour the app describes differ, the model follows the code:

- Usernames of exactly 30 characters are accepted, though the message says "less than 30".
- Deleting another user's post succeeds silently and removes nothing.
- The stored image is not removed when its post is deleted.
- After a rejected request, a new send adds a second row for the pair. From then on the
  duplicate lookup matches several rows and yields nothing, so every further send goes
  through, even once the two users are friends.
- Every error text is the one the code throws.

## Model

| member | source | states |
|---|---|---|
| Text.Trim | actions/post.ts:19 | `trim()` gives the infix of the input left after removing whitespace before and after it: no JavaScript whitespace at either end of the result, only whitespace removed, and empty exactly when the input is all whitespace |
| Text.RemovedEndsAreWhitespace | actions/post.ts:19 | removing a whitespace prefix and then a whitespace suffix keeps an infix and removes only whitespace around it |
| Text.TrimIdempotent | actions/username.ts:116 | trimming an already trimmed string changes nothing |
| Text.TrimSpaces | actions/username.ts:49 | `trim()` removes one space on each side of a non-empty trimmed string and nothing more |
| Text.Utf16Length | actions/post.ts:20-24 | `.length` counts UTF-16 code units: between the number of characters and twice that, and equal to it when every character lies in the Basic Multilingual Plane |
| Text.WordPatternIsTrimmed | actions/username.ts:8 | a string matching `/^[a-zA-Z0-9_]+$/` has nothing for trim to remove |
| Text.ILikeIgnoresCase | actions/username.ts:27-31 | ILIKE matches a name against any re-capitalisation of itself |
| Text.BeforeFirst | actions/post.ts:55 | `split('@')[0]` is the longest prefix without `@`, and it ends where the first `@` is |
| Text.AfterLast | actions/post.ts:68 | `split('.').pop()` is the longest suffix without `.`, preceded by the last `.` when there is one |
| Text.BeforeFirstOf | actions/post.ts:55 | `split(c)[0]` of `a + c + b`, where `a` has no `c`, is `a` |
| Text.AfterLastOf | actions/post.ts:68 | `split(c).pop()` of `a + c + b`, where `b` has no `c`, is `b` |
| Text.AfterLastWhole | actions/post.ts:68 | `split(c).pop()` of a string without `c` is the whole string |
| Text.Prefix | actions/post.ts:55 | `substring(0, 8)` is the first 8 characters, or the whole string when it is shorter |
| Text.IntToStringRoundTrip | actions/post.ts:69 | the printed timestamp is a valid decimal numeral that parses back to the number |
| Text.IntToStringInjective | actions/post.ts:69 | distinct timestamps print differently |
| Store.Db.constructor | actions/friend.ts:14-15 | a store with no rows is valid, with the given session caller |
| Store.TrimmedTextError | actions/post.ts:15-26 | the shared text checks pass exactly for present text whose trimmed length is between 1 and the maximum; any other text gets one of the three messages |
| Store.MaybeSingle | actions/friend.ts:34-38 | `.maybeSingle()` yields a row exactly when one row matches, and that row is one of them |
| Store.FindProfile | actions/friend.ts:23-27 | the profile lookup by id finds a row exactly when some profile has that id |
| Store.FindProfileUnique | actions/username.ts:74-78 | with unique profile ids, the lookup finds that user's only row |
| Store.AcceptedInvolving | app/feed/page.tsx:18-22 | the friend query returns exactly the accepted rows where the user is requester or receiver |
| Store.RequestsBetween | actions/friend.ts:34-37 | the duplicate query returns exactly the rows joining the two users, in either direction |
| Store.SetRequestStatus | actions/friend.ts:79-83 | the status update changes only the row with that id whose receiver is the caller, and leaves every other row as it was |
| Store.SetUsernameOf | actions/username.ts:94-100 | the update sets name and flag on the caller's row only; all other rows are unchanged |
| Store.ProfilesMatching | actions/username.ts:27-30 | the ILIKE query returns exactly the profiles whose username matches |
| Store.ProfilesWithIds | app/profile/page.tsx:66-69 | `.in("id", ids)` returns exactly the profiles whose id is in the set |
| Store.PostsByUsers | app/feed/page.tsx:52 | `.in("user_id", ids)` returns exactly the posts by users in the set |
| Store.DeleteOwnedPost | actions/post.ts:120-124 | the delete removes every copy of the posts with that id and owner and keeps every other row with its multiplicity |
| Store.DeleteLike | actions/like.ts:27-31 | the delete removes every copy of the caller's like on the post, and keeps all other rows with their multiplicity |
| Store.DeleteFollow | actions/follow.ts:43-47 | the delete removes every caller-to-target edge, and keeps all other edges with their multiplicity |
| Store.LikeThenUnlikeRestores | actions/like.ts:26-46 | liking a post one had not liked and then unliking it gives back the original table |
| Store.DeleteAbsentLike | actions/like.ts:27-31 | unliking without a matching row changes nothing |
| Store.FollowThenUnfollowRemovesEdge | actions/follow.ts:20-47 | after follow then unfollow, no caller-to-target edge remains |
| PostQuery.LikeCount | app/components/PostItem.tsx:21 | `likes?.length \|\| 0` is the list length, or 0 when there is no list |
| PostQuery.CommentCount | app/components/PostItem.tsx:77 | `comments?.length \|\| 0` is the list length, or 0 when there is no list |
| PostQuery.SortNewestFirst | app/feed/page.tsx:53 | the order clause puts newer posts first and returns exactly the given rows (a permutation) |
| PostQuery.InsertByDateFacts | app/feed/page.tsx:53 | inserting into a newest-first list keeps it newest first and adds exactly the one row |
| PostQuery.HeadIsNewest | app/feed/page.tsx:53 | in a newest-first list no row is newer than the first |
| PostQuery.PrependNewest | app/feed/page.tsx:53 | a row at least as new as every row of a newest-first list can go in front |
| PostQuery.LikesOn | app/feed/page.tsx:49 | the nested `likes(user_id)` are exactly the like rows of that post |
| PostQuery.CommentsOn | app/feed/page.tsx:50 | the nested comments are exactly the comment rows of that post |
| PostQuery.ViewOf | app/feed/page.tsx:42-51 | a queried post carries both nested lists, and its like count is its number of like rows |
| PostQuery.ViewsOf | app/feed/page.tsx:42-51 | each returned post carries its own nested lists |
| PostQuery.Listed | app/feed/page.tsx:40-53 | the post query returns each matching row once, newest first, with its own likes and comments |
| PostQuery.TotalLikesOfViews | app/profile/page.tsx:122 | the `reduce` over nested like lists is the sum of each post's like rows |
| PostQuery.LikeTotalPermutation | app/profile/page.tsx:122 | that sum does not depend on the order of the posts |
| PostQuery.LikeTotalCountsLikeRows | app/profile/page.tsx:122 | with distinct post ids, that sum is the number of like rows on those posts |
| PostQuery.PostsByUsersDistinct | app/profile/page.tsx:45 | selecting a user's posts keeps post ids distinct |
| PostQuery.ListedTotalLikes | app/profile/page.tsx:122 | the total over a listed query is the like total of its rows, and with distinct ids the number of like rows on them |
| FriendActions.SendFriendRequest | actions/friend.ts:6-68 | guards in order: empty target, no session, self, unknown target, a single existing accepted or pending row. Then the insert or its failure. On error nothing changes; on success exactly one pending row from caller to target is appended |
| FriendActions.AcceptFriendRequest | actions/friend.ts:70-94 | empty id and no session are errors; success sets `accepted` on the matching row whose receiver is the caller, and nothing else |
| FriendActions.RejectFriendRequest | actions/friend.ts:96-119 | the same with `rejected` and the reject failure message |
| FriendActions.Respond | actions/friend.ts:70-119 | the update both handlers share, with their guards and failure text |
| FriendActions.AcceptFriendRequestAction | actions/friend.ts:122-126 | a missing or empty `requestId` gives "Missing requestId" and no change; otherwise the accept |
| FriendActions.RejectFriendRequestAction | actions/friend.ts:128-132 | a missing or empty `requestId` gives "Missing requestId" and no change; otherwise the reject |
| FriendActions.SelfRequestRefused | actions/friend.ts:18-20 | a request to oneself is always refused |
| FriendActions.UnknownTargetRefused | actions/friend.ts:23-31 | a target without a profile is refused with "Target user not found" |
| FriendActions.SingleExistingRowDecides | actions/friend.ts:34-47 | with exactly one row between the pair: accepted means "already friends", pending means "already pending", rejected lets the send through |
| FriendActions.LookupWithoutSingleRowDoesNotBlock | actions/friend.ts:34-40 | with zero or several rows between the pair, the lookup yields nothing and the send proceeds |
| FriendActions.SecondSendRefused | actions/friend.ts:34-45 | after a first send between two users who had no request, a second send is refused as pending, both the sender's resend and the receiver's send back |
| FriendActions.ResendAfterRejection | actions/friend.ts:34-55 | when the only row between the pair is a rejected one, whatever else the table holds, a new send goes through and leaves two rows for the pair |
| FriendActions.TwoRowsNeverBlock | actions/friend.ts:34-55 | once two or more rows join the pair, every send goes through, whatever their statuses, and adds one more row |
| FriendActions.RequestsBetweenSymmetric | actions/friend.ts:34-38 | the duplicate lookup finds the same rows whichever of the two users sends |
| FriendActions.NonReceiverChangesNothing | actions/friend.ts:79-83 | a caller who is not the receiver of the named row changes nothing |
| FeedPage.FeedFriendIdsMembers | app/feed/page.tsx:26-37 | the collected ids are the user plus everyone a row joins them to, in either direction |
| FeedPage.CollectFeedIds | app/feed/page.tsx:26-37 | the `forEach` over the rows, seeded with the user, yields exactly the collected id set |
| FeedPage.FeedIdsMeaning | app/feed/page.tsx:18-37 | over the queried rows (none when the query fails) an id is collected exactly when it is the user or an accepted request joins it to the user |
| FeedPage.ListedMembers | app/feed/page.tsx:40-53 | the rendered list shows exactly the fetched posts |
| FeedPage.Feed | app/feed/page.tsx:13-57 | without a session the page fails. Otherwise the ids are the user plus everyone an accepted request joins them to. A failing post query gives an empty feed; otherwise the feed lists exactly the posts by those users, newest first, with their likes and comments |
| ProfilePage.ProfileFriendIdsMembers | app/profile/page.tsx:56-63 | on rows that involve the user, the collected ids are exactly the users a row joins them to |
| ProfilePage.FeedIsFriendsPlusSelf | app/profile/page.tsx:56-63 | the feed's id set is the profile's friend set plus the user |
| ProfilePage.NotOwnFriend | app/profile/page.tsx:56-63 | without self-requests the user is not in their own friend set |
| ProfilePage.ProfilesWithIdsCount | app/profile/page.tsx:66-69 | with unique profile ids, the friend query returns one row per friend id that has a profile |
| ProfilePage.HeadIdIsNew | app/profile/page.tsx:66-69 | with unique ids, the rows after the first keep unique ids and none shares the first's id |
| ProfilePage.CollectFriendIds | app/profile/page.tsx:56-63 | the loop builds the friend-id set |
| ProfilePage.FriendIdsMeaning | app/profile/page.tsx:49-63 | a user is among the collected ids exactly when an accepted request joins them to the signed-in user |
| ProfilePage.OneRowPerId | app/profile/page.tsx:66-69 | with unique profile ids, the friend rows have pairwise different ids |
| ProfilePage.FriendListFacts | app/profile/page.tsx:66-69 | the friend list is exactly the profiles joined to the user by an accepted request; it never holds the user and has one row per friend |
| ProfilePage.OwnPostFacts | app/profile/page.tsx:122 | the total likes of one's own posts is their like total, and with distinct ids the number of like rows on them |
| ProfilePage.Profile | app/profile/page.tsx:13-122 | no session redirects to /login. A missing profile gives "Profile not found". Otherwise the page shows the user's profile; their own posts, newest first; their friends exactly, never themselves; the post count; the distinct friend count; and the total likes |
| UsernameActions.IsUsernameAvailable | actions/username.ts:13-38 | an empty name, or one whose trim fails the length or character rule, is unavailable; a well-formed name is available exactly when the lookup fails or the case-insensitive lookup does not match exactly one profile |
| UsernameActions.AvailableWhenNobodyHasIt | actions/username.ts:28-38 | a well-formed name that no profile matches is available, and so is any well-formed name while the lookup fails |
| UsernameActions.NameError | actions/username.ts:45-61 | the input checks pass exactly for a present name whose trim has 3 to 30 code units and only word characters |
| UsernameActions.SetUsernameKeepsIds | actions/username.ts:94-100 | the update keeps profile ids unique |
| UsernameActions.SetUsernameOutcome | actions/username.ts:43-105 | setUsername succeeds exactly when its guards pass and the update does not fail; a failing guard is the answer |
| UsernameActions.Rename | actions/username.ts:94-100 | the update sets the caller's row to the new name with the flag set, and keeps the store valid |
| UsernameActions.SetUsername | actions/username.ts:43-110 | guards in order: input, session, profile, the once-only flag, availability. Then the update or its failure. On success only the caller's row gets the trimmed name and the flag; on error nothing changes |
| UsernameActions.SetUsernameAction | actions/username.ts:115-121 | the form field is trimmed; an empty one is "Username is required"; otherwise setUsername with the trimmed name |
| UsernameActions.AcceptedNameIsWellFormed | actions/username.ts:49-61 | a stored name is trimmed, has 3 to 30 characters and only word characters |
| UsernameActions.WordNameBounds | actions/username.ts:6-7 | a word-character name is accepted exactly when it has 3 to 30 characters, 30 included |
| UsernameActions.WordCharsAreOneUnit | actions/username.ts:8 | a word-character name's `.length` is its number of characters |
| UsernameActions.SurroundingSpaceIgnored | actions/username.ts:49 | surrounding spaces are trimmed before the checks: one space either side of a well-formed name is checked, and stored, as the name |
| UsernameActions.TakenIgnoringCase | actions/username.ts:27-37 | a name one profile has, in any capitalisation, is taken |
| UsernameActions.UnderscoreMatchesAnyCharacter | actions/username.ts:30 | `_` is an ILIKE wildcard: "a_b" is taken once "axb" exists |
| UsernameActions.TwoMatchesReportAvailable | actions/username.ts:31-35 | when two profiles match, `maybeSingle` fails and the name is reported available |
| UsernameActions.FlagSetAfterRename | actions/username.ts:94-100 | after the update the user's profile is still found, with the once-only flag set |
| UsernameActions.SecondChangeRefused | actions/username.ts:84-100 | after a successful change the change is used up, and the next attempt by the same user is refused as "changed only once", whether or not its availability lookup fails |
| UsernameActions.ChangeUsedSurvives | actions/username.ts:94-100 | a used-up change stays used up through every other update of the profile table: any user's rename and the profile step of createPost |
| UsernameActions.UsedChangeRefuses | actions/username.ts:84-86 | while the change is used up, every attempt with a well-formed name is refused as "changed only once", whatever the availability lookup answers |
| UsernameActions.ChosenNameBecomesTaken | actions/username.ts:27-37 | once a user takes a name no profile matched, it is taken for everyone else, in any matching spelling |
| PostActions.InputError | actions/post.ts:15-36 | the checks pass exactly for present content whose trim has 1 to 5000 code units, with any file within 5 MiB and of one of the five image types |
| PostActions.FallbackUsername | actions/post.ts:55 | the part of the e-mail before `@` when non-empty, otherwise `user_` and the first 8 characters of the id; never empty |
| PostActions.WithProfile | actions/post.ts:43-57 | after the step the user has a profile; an existing one is kept, and a missing one is appended with the fallback name and an unused change |
| PostActions.WithProfileKeepsIds | actions/post.ts:49-57 | creating the profile keeps profile ids unique |
| PostActions.EnsureProfile | actions/post.ts:43-63 | the profile step fails only when a missing profile cannot be inserted, and then changes nothing |
| PostActions.ImageUrl | actions/post.ts:65-89 | the post has an image URL exactly when a file is attached, and it is the public URL of the upload path |
| PostActions.UploadAndInsert | actions/post.ts:65-100 | an upload failure with a file, then an insert failure, are errors that add no post; otherwise exactly one post with the trimmed content and the image URL is appended |
| PostActions.CreateAs | actions/post.ts:42-100 | for a signed-in user: a failing profile insert is an error that adds nothing; otherwise the profile exists afterwards and the upload and insert decide the result |
| PostActions.CreatePost | actions/post.ts:10-107 | every input check runs before any backend work. No session is an error. The profile is created when missing: a failure is an error, and it stays created even if the upload or the insert fails later. The image URL is the public URL of the user's folder path exactly when a file is given. On success exactly one post with the trimmed content is appended; on failure the posts are unchanged |
| PostActions.DeletePost | actions/post.ts:110-133 | an empty id and no session are errors; success removes only posts with that id owned by the caller |
| PostActions.FallbackFromEmail | actions/post.ts:55 | an address `local@domain` with a non-empty local part gives the local part |
| PostActions.FallbackFromId | actions/post.ts:55 | no e-mail, or one starting with `@`, gives "user_" and the first 8 characters of the id |
| PostActions.FallbackBypassesUsernameRules | actions/post.ts:55 | the fallback name can break the username rules: an address like `first.last@domain` gives `first.last`, which has a dot |
| PostActions.ImageInUploaderFolder | actions/post.ts:70 | the image path starts with the uploader's id and `/` |
| PostActions.ImageExtension | actions/post.ts:68-69 | the stored name is the timestamp, a dot, and what follows the file name's last dot |
| PostActions.ImageWithoutExtension | actions/post.ts:68-69 | a file name without a dot is kept whole after the timestamp |
| PostActions.DeleteOthersPostIsNoOp | actions/post.ts:120-124 | deleting a post one does not own removes nothing |
| PostActions.DeleteOwnPost | actions/post.ts:120-124 | deleting one's own post removes it and keeps every post with another id |
| CommentActions.InputError | actions/comment.ts:13-28 | the checks pass exactly for a non-empty post id and present content whose trim has 1 to 1000 code units; the post id is checked first |
| CommentActions.AddComment | actions/comment.ts:8-54 | the input checks run before the session check. On success exactly one comment with the caller, the post id and the trimmed text is appended; on error nothing changes |
| CommentActions.BlankCommentIsEmpty | actions/comment.ts:21-24 | whitespace-only content is refused as empty |
| CommentActions.StoredCommentBounds | actions/comment.ts:21-41 | a stored comment is trimmed, non-empty and at most 1000 code units long |
| LikeActions.ToggleLike | actions/like.ts:6-54 | an empty post id, a missing flag and no session are errors in that order. With the flag set, every one of the caller's likes on the post is deleted and none is left; otherwise one like is appended, so the flag is trusted and "not liked" on a liked post leaves two rows. On error nothing changes |
| LikeActions.UnlikeRemovesOnlyOwnLike | actions/like.ts:26-31 | unliking removes the caller's like and leaves every other like row as it was |
| FollowActions.FollowUser | actions/follow.ts:6-32 | an empty id, no session and a self-follow are errors; success appends the caller-to-target edge; on error nothing changes |
| FollowActions.UnfollowUser | actions/follow.ts:34-56 | an empty id and no session are errors, with no self check; success deletes exactly the caller-to-target edges |
| FollowActions.UnfollowKeepsNoSelfFollows | actions/follow.ts:43-47 | unfollowing never introduces a self edge |
| FollowRoute.Post | app/api/follow/route.ts:5-29 | the answer is 400 for missing parameters, then 401, then 500 with a failing insert's text, 200 for follow or unfollow, and 400 otherwise. The edge is added on a 200 follow and removed on a 200 unfollow unless the delete failed; nothing changes otherwise |
| FollowRoute.UnparsableBodyIsMissingParameters | app/api/follow/route.ts:6-8 | a body that is not JSON gives 400 "missing parameters" |
| FollowRoute.RouteAcceptsSelfFollow | app/api/follow/route.ts:15-17 | following oneself through the endpoint succeeds |
| FollowRoute.UnfollowAlwaysSucceeds | app/api/follow/route.ts:18-25 | an unfollow is answered 200 however the delete went |
| FollowRoute.UnknownActionRejected | app/api/follow/route.ts:20-22 | any other action is 400 "invalid action" |
| TimeAgo.ElapsedSeconds | app/components/TimeAgo.tsx:12 | the elapsed whole seconds are the floor of the millisecond difference over 1000 |
| TimeAgo.Bucket | app/components/TimeAgo.tsx:14-36 | the six ranges partition the integers. Each label counts whole units elapsed: minutes 1..59, hours 1..23, days 1..6, weeks 1..4 |
| TimeAgo.BucketMonotone | app/components/TimeAgo.tsx:14-36 | as time passes the unit never gets finer, and within one unit the count never decreases |
| TimeAgo.Thresholds | app/components/TimeAgo.tsx:14-28 | the unit changes exactly at 60, 3600, 86400, 604800 and 2592000 seconds |
| TimeAgo.SecondsLabel | app/components/TimeAgo.tsx:12-15 | 45 999 ms is "45s ago" |
| TimeAgo.FutureDateIsNegativeSeconds | app/components/TimeAgo.tsx:12-15 | a future date shows negative seconds: half a second ahead is "-1s ago" |
| TimeAgo.DaysLabel | app/components/TimeAgo.tsx:22-24 | two days and five seconds is "2d ago" |
| DateUtils.NormalizeUtc | lib/dateUtils.ts:14-25 | the parsed string always carries a zone marker and is the input or the input plus `Z` |
| DateUtils.NormalizeAppendsIffNoMarker | lib/dateUtils.ts:20-22 | `Z` is appended exactly when the string neither ends in `Z`, contains `+`, nor has a `-` from index 10 on |
| DateUtils.NormalizeIdempotent | lib/dateUtils.ts:20-22 | normalising twice is normalising once |
| DateUtils.Examples | lib/dateUtils.ts:20-22 | hyphens of the date part do not stop the suffix; `Z`, `+05:30` and `-05:00` do |
| DateUtils.FormatAbsoluteTime | lib/dateUtils.ts:58-64 | without a pattern the default "d MMM yyyy · h:mm a" is used |
| DateUtils.FormatFullTimestamp | lib/dateUtils.ts:77-80 | the full timestamp is the absolute format with the long pattern |
| DateUtils.FormattingIgnoresPriorNormalisation | lib/dateUtils.ts:37-64 | formatting an already normalised timestamp gives the same text |
| UsernameChanger.ClientError | app/components/UsernameChanger.tsx:24-37 | the form lets a name through exactly when it is non-blank, at least 3 units long as typed, and all word characters as typed |
| UsernameChanger.ShownError | app/components/UsernameChanger.tsx:46 | the shown error is the thrown message, or the fallback text when that is empty; never empty |
| UsernameChanger.Form.constructor | app/components/UsernameChanger.tsx:16-18 | the form starts with an empty name, no error, not loading |
| UsernameChanger.Form.Type | app/components/UsernameChanger.tsx:89 | typing sets the name |
| UsernameChanger.Form.Settle | app/components/UsernameChanger.tsx:41-48 | success navigates to the new name's profile and keeps the error; failure shows the message and does not navigate |
| UsernameChanger.Form.Check | app/components/UsernameChanger.tsx:21-37 | the error is cleared, then set to the first failing form check, which is also returned |
| UsernameChanger.Form.Send | app/components/UsernameChanger.tsx:39-49 | loading is reset after either outcome. Success goes to the new profile page with the changed row; failure shows the error and changes nothing |
| UsernameChanger.Form.HandleSubmit | app/components/UsernameChanger.tsx:20-50 | a form-check failure shows its message and never calls the server. Otherwise the server's answer decides the new page or the error, and loading ends false |
| UsernameChanger.SpacesRefusedByForm | app/components/UsernameChanger.tsx:34-37 | a well-formed name typed with a space on either side is refused by the form for its characters, though the server would accept it trimmed |
| UsernameChanger.FormDefersUpperBound | app/components/UsernameChanger.tsx:24-37 | the form has no maximum: a name it passes is accepted by the server checks exactly when it has at most 30 characters, and otherwise gets "less than 30" |
| UsernameChanger.BlankIsEmpty | app/components/UsernameChanger.tsx:24-27 | a whitespace-only name is refused as empty |
| UsernameChanger.EmptyBeforeShort | app/components/UsernameChanger.tsx:24-32 | a blank name is reported empty although it is also short |
| UsernameChanger.ShortBeforeBadCharacters | app/components/UsernameChanger.tsx:29-37 | a two-character name with a bad character is reported short, not for its characters |
| PostItem.HasLiked | app/components/PostItem.tsx:20 | undefined exactly when the post has no like list; true exactly when some like is the viewer's |
| PostItem.HasLikedOfView | app/components/PostItem.tsx:20 | on a queried post the flag says whether the table holds the viewer's like |
| PostItem.LikeClick | app/components/PostItem.tsx:61-62 | the click sends the post id and the flag. A missing like list is refused as an invalid like status. Success deletes when liked and inserts otherwise |
| PostItem.LikeClickFlips | app/components/PostItem.tsx:61-62 | on a freshly loaded post the card's flag says whether the viewer likes it, and the table the click produces holds the viewer's like exactly when the old one did not |
| PostItem.DeleteClick | app/components/PostItem.tsx:85-93 | delete is sent exactly when the viewer owns the post and confirmed; otherwise nothing changes |
| PostItem.CardCounts | app/components/PostItem.tsx:21-77 | the card's counters are the post's numbers of like and comment rows |
| FriendButton.Button.constructor | app/components/FriendButton.tsx:16-17 | the status starts as the prop, not loading |
| FriendButton.Button.Press | app/components/FriendButton.tsx:38 | pressing sets loading, which disables the button |
| FriendButton.Button.Settle | app/components/FriendButton.tsx:41-48 | success moves to pending; failure keeps "none" and alerts; loading ends false either way |
| FriendButton.Button.Click | app/components/FriendButton.tsx:35-51 | a click is possible only in state "none" when not loading. A successful send moves to pending and appends the request; otherwise the status stays, an alert shows and nothing changes |
| Typewriter.NextDots | app/components/TypewriterLoading.tsx:10 | from length 3 or more the text resets to empty; otherwise one dot is appended |
| Typewriter.Dots | app/components/TypewriterLoading.tsx:31 | a run of n dots |
| Typewriter.DotsLength | app/components/TypewriterLoading.tsx:10 | a run of dots has `.length` n |
| Typewriter.NextDotsStep | app/components/TypewriterLoading.tsx:10 | one tick adds a dot to fewer than three and empties three |
| Typewriter.DotsAfterCycle | app/components/TypewriterLoading.tsx:6-10 | from the initial empty text, after k ticks the text is k mod 4 dots |
| Typewriter.Loader.constructor | app/components/TypewriterLoading.tsx:6 | the text starts empty |
| Typewriter.Loader.Tick | app/components/TypewriterLoading.tsx:9-11 | a tick applies the updater |
| Env.Missing | lib/env.ts:8-10 | the missing names are exactly the required ones that are unset or empty |
| Env.ValidateEnv | lib/env.ts:2-26 | validation passes exactly when both variables are set and the URL is valid |
| Env.MissingInOrder | lib/env.ts:3-10 | the missing names keep the listed order |
| Env.BothMissingMessage | lib/env.ts:12-17 | with both missing, the message names both, joined by ", " |
| Env.UrlCheckedLast | lib/env.ts:12-25 | while a variable is missing the result is the missing-variables error, whatever the URL check would say |

## Left out

- Authentication, the backend SDK, `revalidatePath`, `router.refresh` and console logging are not modelled. The session is `Db.caller`, and backend write failures are boolean parameters.
- Image storage is not modelled. The upload is one failure flag, and `getPublicUrl(path)` is a base URL parameter followed by the path.
- The date library (`format`, `formatDistanceToNow`), `toLocaleDateString`, `new Date` parsing and `Date.now()` are not modelled. They are function or integer parameters given in milliseconds.
- `isToday` in lib/dateUtils.ts is left out: it compares local calendar fields of parsed dates.
- The `setInterval` timers of TimeAgo and TypewriterLoading are left out. Each tick is the pure updater, or one `Tick` call.
- DateUtils.FormatRelativeTime: it has no contract of its own, because it only forwards the normalised string to the date library.
- TimeAgo.Label and TimeAgo.UpdateTimeAgo have no contract of their own. Their behaviour is stated by the example lemmas and by `Bucket`.
- Concurrency is not modelled. Each action is one atomic sequential step, so the check-then-insert races in sendFriendRequest and setUsername are not captured.
- Non-string arguments cannot be written, because parameters are typed. Only the emptiness half of each `!x || typeof x !== 'string'` check is modelled. `hasLiked` is an `Option<bool>` because the post card can really pass `undefined`.
- Cascade deletes of likes and comments when a post is deleted belong to the database schema and are not modelled.
- The nested author joins (`profiles(username)`) of the post queries are not modelled. Neither are the comments' own ordering or their author names.
- The profile page is modelled without read failures of its queries; like the rest of the model, it assumes queries that succeed.
- `.single()` lookups, and the `.maybeSingle()` profile lookup of createPost (actions/post.ts:43-47), are modelled as finding the first row with the id. Under `Db.Valid()` that row is unique, so the case of several rows is never reached.
- ILIKE is modelled only for patterns without `%` and `\`. Every pattern the code builds has already passed the `[A-Za-z0-9_]` check.
- Text.ILike folds case for ASCII letters only. Stored usernames need not be ASCII (a fallback name is the e-mail's local part), and the database folds them by its locale, where a character such as U+212A (Kelvin sign) can match `k`; the model does not capture such matches.
- JavaScript `trim` is modelled by its code-point set. `.length` is modelled in UTF-16 units.
- The load-time call of `validateEnv` in development mode (lib/env.ts:29-31) is not modelled. `new URL` is modelled as a predicate parameter.
- The rendered markup, styling and animation of the components are not modelled.
