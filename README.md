# instagram-mock-ui, modelled in Dafny

instagram-mock-ui lets a social-media manager mock up an Instagram profile grid, share it with a client, and collect the client's approval. The model covers the logic under the DOM and HTTP glue:

- the server's feed store;
- the client-review store of logged e-mails, feedback drafts and approval snapshots;
- the scheduler plans;
- the image cache and its metadata index;
- Google sign-in;
- in the browser:
  - the grid editor's post list;
  - the Google Drive link normaliser, in its two variants;
  - the review pages' copy of the client's draft;
  - Drive upload validation;
  - the Drive token's session storage.

JSON files are whole sequences or maps held in a class field. Reading a file reads the field, and writing it assigns the field. Clocks, ids minted from `Date.now()` and answers from other servers are method parameters.

Modules, one per concern:

- `Options` and `Seqs`: the optional, result, `find`, `findIndex` and `filter` vocabulary.
- `JsText` and `JsIds`:
  - JavaScript's `trim`, `parseInt`, number printing and the e-mail pattern;
  - ids that are numbers or strings, and their loose and strict comparison.
- `Feeds`, `Feedback`, `Scheduler`, `Cache` and `Users`: server/index.js and server/auth.js.
- `EditorMedia`, `EditorStats` and `Editor`: client/script.js.
- `DriveUrl`: the link normaliser of client/script.js and of client/single-client.js.
- `DraftMirror`, `ReviewClient` and `SingleReview`: client/client.js and client/single-client.js.
- `DriveUpload` and `DriveToken`: client/drive-upload.js and client/auth.js.

## Model

| member | source | states |
|---|---|---|
| JsText.Trim | client/client.js:591 | the result has no white space at either end and is what is left after cutting white space from both ends |
| JsText.TrimEmptyIff | client/client.js:591-596 | the trimmed input is empty exactly when the input is all white space, so an all-blank address is refused |
| JsText.EmailRegexIff | server/index.js:575-576 | the executable e-mail check accepts exactly the strings matching `^[^\s@]+@[^\s@]+\.[^\s@]+$`, in both directions |
| JsText.DecimalRoundTrip | server/index.js:773 | a millisecond stamp printed with `toString` reads back as the same number |
| JsIds.IntText | server/index.js:773 | `String(n)` of any integer, negative ones included, is read back by `parseInt` as `n` |
| JsIds.NumTextInjective | server/index.js:748 | two numeric feed ids compare equal through `toString()` exactly when they are equal |
| JsIds.LooseAndStrictDiffer | server/index.js:583 | a numeric id and its decimal string are equal through `toString()` but different under `===` |
| Feeds.ListFeeds | server/index.js:286-295 | the listing holds exactly the stored feeds owned by the signed-in user |
| Feeds.GetPublicFeed | server/index.js:321-337 | 404 exactly when no feed is selected by `parseInt` or `toString()`; otherwise a selected feed, never a refusal |
| Feeds.GetFeed | server/index.js:298-317 | 404 exactly when the public lookup finds nothing; the public lookup's feed is returned exactly when it has no owner or belongs to the user |
| Feeds.FeedStore.Create | server/index.js:340-357 | appends one feed stamped with the clock and the user, its type defaulting to `Grid` |
| Feeds.DeleteTarget | server/index.js:363 | the delete route selects a feed exactly when `parseInt` of the parameter equals a stored numeric id |
| Feeds.WithoutId | server/index.js:374 | deleting keeps every feed without that numeric id and no feed with it |
| Feeds.FeedStore.Delete | server/index.js:360-380 | 404 with no target, 403 for another owner's feed, and otherwise every feed with the id is removed |
| Feeds.CreatedFeedIsFound | server/index.js:298-357 | a created feed is read back by its owner under its printed id |
| Feeds.OwnerlessFeedHiddenButReadable | server/index.js:290-309 | a feed without owner is readable by every signed-in user yet listed for none |
| Feeds.StringIdsAreUndeletable | server/index.js:363 | a feed whose stored id is a string is never found by the delete route |
| Feeds.PaddedParamSelects | server/index.js:302 | `0`-padded and signed parameters select the same numeric feed |
| Feedback.FeedbackStore.LogEmail | server/index.js:566-603 | 400 for missing or malformed input, `alreadyExists` exactly when the strictly-equal pair is logged, else one entry appended; pairs stay unique |
| Feedback.LooseFeedIdsLogTwice | server/index.js:566-603 | the pair check is strict, so a client logged under a numeric feed id and then under its decimal text is appended a second time by the same log rule `LogEmail` follows, and the feed's listing holds both entries |
| Feedback.EmailsForFeed | server/index.js:606-615 | the e-mails listed for a feed are exactly those whose feed id prints as the parameter |
| Feedback.GetFeedback | server/index.js:620-649 | 400 exactly when the e-mail is missing; otherwise the first stored draft whose feed id prints as the parameter and whose e-mail matches, or, when there is none, an empty draft for that feed and e-mail stamped with the clock |
| Feedback.FindDraft | server/index.js:630-632 | the first draft whose feed id prints as the key and whose e-mail matches, none exactly when there is no such draft |
| Feedback.WithDraft | server/index.js:699-712 | an existing draft leaves the list as it is; a missing one is appended last as an empty draft (no grid comment, no posts, stamped now); uniqueness is kept |
| Feedback.FeedbackStore.Upsert | server/index.js:652-687 | 400 without feed id or e-mail, else the first matching draft is replaced in place or one is appended, with absent posts stored as `[]` |
| Feedback.UpsertThenRead | server/index.js:620-687 | after an upsert the GET route returns exactly the saved draft |
| Feedback.UpsertKeepsDraftsUnique | server/index.js:661-677 | upserting never creates a second draft for the same feed and e-mail |
| Feedback.WithEntry | server/index.js:714-722 | a post entry is created unliked and without comments only when missing, at the end |
| Feedback.FeedbackStore.Like | server/index.js:690-735 | 400 for a missing field, else draft and entry are found or created and only the entry's like and the stamp change |
| Feedback.LikeSetsItsPost | server/index.js:724 | after a like the post reads as liked as requested, and its comments are unchanged |
| Feedback.LikeLeavesOtherPosts | server/index.js:714-724 | a like changes no other post's like or comments |
| Feedback.FeedbackStore.AddComment | server/index.js:738-789 | 400 for a missing field or empty text, else one comment whose id is the clock's text is appended to the post's entry |
| Feedback.CommentGoesToItsPost | server/index.js:772-778 | the post's comments become the old ones plus the new comment last, and its like is kept |
| Feedback.CommentLeavesOtherPosts | server/index.js:762-778 | a comment changes no other post's like or comments |
| Feedback.WithoutComment | server/index.js:815 | exactly the comments with another id remain |
| Feedback.FeedbackStore.DeleteComment | server/index.js:792-830 | 404 with nothing written when the draft, entry or comment id is missing; else exactly the comments with that id are removed |
| Feedback.DeleteUndoesComment | server/index.js:773-815 | deleting a just-added comment by its id gives back the earlier list |
| Feedback.SameMillisecondCommentsDeletedTogether | server/index.js:773-815 | any two comments created in the same millisecond share an id, so deleting that id removes both wherever they sit, and leaves the other comments as deleting from the list without them would |
| Feedback.FeedbackStore.SubmitApproval | server/index.js:835-882 | 400 or 404 with nothing written; else exactly one approval is appended holding the frozen draft, which stays |
| Feedback.Frozen | server/index.js:859-865 | the payload lists the draft's posts one for one, with like copied and comments reduced to texts |
| Feedback.ApprovalRecordsLike | server/index.js:713-724 | after a like, the approval payload's first entry for that post carries that like and the texts of the comments the post already had |
| Feedback.ApprovalsForFeed | server/index.js:885-896 | the approvals listed for a feed are exactly those whose feed id prints as the parameter |
| Scheduler.SchedulerStore.Create | server/index.js:901-928 | 400 without a feed id, else one empty plan is appended, its id and stamps taken from the clock |
| Scheduler.GetPlan | server/index.js:931-945 | 404 exactly when no plan's id prints as the parameter, else such a plan |
| Scheduler.PlansForFeed | server/index.js:948-957 | the plans listed are exactly those of the feed |
| Scheduler.WithSlot | server/index.js:973-977 | an entry `{postId, scheduled: false}` is appended only when the post has none |
| Scheduler.SchedulerStore.PatchPost | server/index.js:960-991 | 404 for an unknown plan, else only that plan's entry list changes, to the patched one |
| Scheduler.PatchSetsItsSlot | server/index.js:980-984 | the patched entry gets `scheduled` and `caption` when defined and date and time when non-empty, keeps every other field, and is stamped |
| Scheduler.PatchLeavesOtherSlots | server/index.js:973-984 | every other post's entry keeps its place and value |
| Scheduler.PatchIdempotent | server/index.js:973-984 | replaying a patch in the same millisecond changes nothing more |
| Scheduler.EmptyPatchOnlyStamps | server/index.js:980-984 | a patch with no fields only stamps an existing entry |
| Scheduler.CreatedPlanIsFound | server/index.js:901-945 | a created plan is read back under its printed id |
| Cache.SetEntry | server/index.js:153-175 | an existing name keeps its place with the new info; a new name is appended last; every other entry stays and names stay unique |
| Cache.RemoveEntry | server/index.js:215-228 | exactly the entries under other names remain |
| Cache.CacheStore.GetExistingCachePath | server/index.js:177-213 | the answer and the metadata left behind are those of the corrected lookup |
| Cache.LookupMeaning | server/index.js:185-207 | a hit exactly when a matching entry's own file exists, then the first such; on a miss exactly the entries with an existing file are kept, and on a hit nothing is written |
| Cache.StoredImageIsServed | server/index.js:401-477 | after a miss, the file and entry the download route records make the next identical request a hit at exactly the path the download returned |
| Cache.CacheStore.Download | server/index.js:385-496 | 400 without URL, type or id; a cached hit of the corrected lookup is served; otherwise a fetched file is stored under its fresh name and recorded |
| Cache.IndexZeroLikeNone | server/index.js:411 | index `0` and no index give the same file name |
| Cache.TypeFoldersSeparateTypes | server/index.js:395 | two media types share a cache folder only when they are the same type |
| Cache.StoredFilesExpire | server/index.js:121-151 | a file stored for a post, reel, carousel or profile lies in a folder the cleanup visits, so it is gone after a sweep once older than two months |
| Cache.CacheStore.CleanupOldCache | server/index.js:121-151 | exactly the files of the four cache folders older than 60 days are removed |
| Cache.CleanupLaterSubsumes | server/index.js:121-151 | cleaning at one time and again later is cleaning once at the later time |
| Cache.CacheStore.DeleteCached | server/index.js:499-535 | 400 without paths; else each existing cache file named is removed with its metadata and counted |
| Cache.DeleteCountsRemovals | server/index.js:509-521 | only files named are removed, and the reported count is the number removed |
| Cache.DeleteKeepsNonCacheFiles | server/index.js:499-535 | the corrected delete route never removes a file outside the cache folders |
| Cache.AsWrittenAgreesOnItsOwnType | server/index.js:185-203 | when all entries have the requested type, the written and corrected loops agree |
| Cache.AsWrittenDropsOtherTypes | server/index.js:186-202 | a reel lookup as written drops a live post's metadata; the corrected lookup keeps it |
| Cache.AsWrittenDeletesDataFiles | server/index.js:513-516 | the route as written deletes `Data/users.json` on request; the corrected route leaves it |
| DriveUrl.ConvertEditor | client/script.js:1372-1404 | a falsy input comes back unchanged; otherwise the result is the input or one of the two output forms of a Drive id |
| DriveUrl.ConvertEditorLeavesUnrecognised | client/script.js:1372-1404 | a link in which neither the `/file/d/` pattern nor the `?id=`/`&id=` pattern matches anywhere comes back unchanged |
| DriveUrl.ConvertEditorUsesLeftmostFileLink | client/script.js:1379-1380 | the leftmost `/file/d/` match gives the output form of the id read after it |
| DriveUrl.ConvertEditorUsesLeftmostQuery | client/script.js:1383-1391 | with no `/file/d/` match, the leftmost `?id=` or `&id=` match gives the output form of the id read after it |
| DriveUrl.FileLinkTakesPriority | client/script.js:1379-1380 | a `/file/d/{id}` link is rewritten with that id, whatever `id=` parameter it also has |
| DriveUrl.EndpointPatternRedundant | client/script.js:1383-1391 | the third pattern never matches where the second did not |
| DriveUrl.ImageUrlExtractsId | client/script.js:1400 | the image form of an id yields that id again |
| DriveUrl.VideoUrlExtractsId | client/script.js:1397 | the video form of an id yields that id again |
| DriveUrl.ConvertEditorIdempotent | client/script.js:1372-1404 | converting twice is converting once |
| DriveUrl.ConvertSingle | client/single-client.js:238-258 | a falsy input comes back unchanged; otherwise the result is the input or an output form of a Drive id |
| DriveUrl.ConvertSingleLeavesUnrecognised | client/single-client.js:238-258 | a link with no `?id=`, `&id=` or `/id=` match comes back unchanged |
| DriveUrl.ConvertSingleUsesLeftmost | client/single-client.js:243 | the leftmost `[?&/]id=` match gives the output form of the id read after it |
| DriveUrl.NoEqualsNoMatch | client/single-client.js:243 | a link without `=` is left alone by the single-post variant |
| DriveUrl.VariantsDisagreeOnFileLinks | client/single-client.js:243-257 | a `/file/d/{id}/view` link is rewritten by the editor and left unchanged by the single-post page |
| DriveUrl.VariantsAgreeOtherwise | client/single-client.js:238-258 | on links with neither `/file/d/` nor `/id=` the two variants agree |
| EditorMedia.NewPost | client/script.js:441-460 | the new post has the given id, kind, date and time and no media; exactly a carousel gets images, which are two `MediaPlaceholder`s with no cached ones |
| EditorMedia.UploadedPost | client/script.js:109-140 | `reels` gives a reel and `carousels` a carousel, anything else a post; a carousel carries every uploaded URL; a reel the first URL as video and the thumbnail, or the URL without one; a post the first URL and its thumbnail |
| EditorMedia.UploadedReelShowsVideo | client/script.js:117-118 | a reel uploaded without a thumbnail shows the converted video link on the grid |
| EditorMedia.Reels | client/script.js:481 | exactly the reels of the feed |
| EditorMedia.GridPosts | client/script.js:479-481 | every post on the `grid` tab, exactly the reels on any other |
| EditorMedia.GridPostsIdempotent | client/script.js:479-481 | filtering the grid again changes nothing |
| EditorMedia.TileImage | client/script.js:493-513 | the media URL when there is one, otherwise `MediaPlaceholder` |
| EditorMedia.CachedViewKeepsShape | client/script.js:194-210 | applying cached copies keeps id, kind and image count |
| EditorMedia.CachedViewIdempotent | client/script.js:194-210 | applying cached copies twice is applying them once |
| EditorMedia.CachedViewKeepsTile | client/script.js:194-210 | the grid shows the same picture before and after the cached copies are applied |
| EditorMedia.MergedImages | client/script.js:206 | each image is its cached copy when truthy, else the original, and the count is kept |
| EditorMedia.CachedAccountPrefersCopy | client/script.js:190-192 | a cached profile picture replaces the linked one; otherwise the account is unchanged |
| EditorMedia.CachePathsOf | client/script.js:1446-1451 | the deletion request lists exactly the post's non-empty cached paths |
| Editor.EditorState.AddDriveUpload | client/script.js:97-146 | nothing for an empty result; a profile upload changes only the picture; otherwise the uploaded post goes first |
| Editor.EditorState.ApplyCachedMedia | client/script.js:189-211 | every post is replaced by its cached view and the account by its cached one |
| Editor.EditorState.AddContent | client/script.js:433-467 | the new post is inserted in front of the unchanged list |
| Editor.WithoutPost | client/script.js:978 | exactly the posts with another id remain |
| Editor.EditorState.DeletePost | client/script.js:967-983 | the cache paths of the first post with the id are requested, and every post with the id goes |
| Editor.AddThenDeleteRestores | client/script.js:433-467 | deleting a just-added post restores the list |
| Editor.DeleteIdempotent | client/script.js:978 | deleting twice is deleting once |
| Editor.EditorState.HandleDrop | client/script.js:1031-1055 | a no-op off the grid tab or on the same tile; else the dragged post moves to the target's index |
| Editor.MovedIsPermutation | client/script.js:1044-1048 | the result is a permutation with the dragged post at the target's former index |
| Editor.MovedKeepsOthersInOrder | client/script.js:1044-1048 | the other posts keep their relative order |
| Editor.MovedBack | client/script.js:1044-1048 | dragging back restores the list |
| Editor.WithAddedImage | client/script.js:739-742 | one filler image is appended, with its name when names are kept, and nothing else changes |
| Editor.EditorState.AddCarouselImage | client/script.js:736-746 | acts only on a carousel with fewer than 20 images and keeps every carousel within bounds |
| Editor.EditorState.RemoveCarouselImage | client/script.js:749-763 | acts only on a carousel with more than one image and keeps every carousel within bounds |
| Editor.CarouselBoundsKept | client/script.js:736-763 | adding below 20 and removing above 1 keep a carousel between 1 and 20 images |
| Editor.RemovingKeepsArraysAligned | client/script.js:752-758 | the same index leaves `images`, `cachedImages` and `imageNames`, which stay aligned |
| Editor.EditorState.PostApprovalStats | client/script.js:1612-1664 | liked exactly when some approval likes the post in either format; the comments are all of them in order, and the count is their number |
| Editor.PayloadStats | client/script.js:1624-1642 | one approval's payload pass: liked exactly when a payload post likes it, and its comments |
| Editor.ItemStats | client/script.js:1645-1660 | one approval's older-format pass: liked exactly when a like item names the post, and its comments |
| EditorStats.CommentsMatchTotal | client/script.js:1630-1651 | the comment list is as long as the total the counters add up |
| EditorStats.SubmittedLikeIsReported | client/script.js:1626-1628 | a like frozen into an approval is reported by the editor |
| Editor.EditorState.LoadSchedulerStatus | client/script.js:1808-1834 | nothing without a feed, `[]` on failure, else the ids of all scheduled entries of all plans |
| EditorStats.ScheduledIdsMeaning | client/script.js:1821-1839 | a post is listed exactly when some plan has an entry for it marked scheduled |
| EditorStats.PatchedPostIsScheduled | client/script.js:1821-1839 | after the scheduler patches a post with `scheduled: true`, the editor shows it as scheduled |
| DraftMirror.ReviewSession.SubmitEmail | client/client.js:589-634 | accepted exactly when the trimmed input is a valid address and the server logged it; the identity is unchanged otherwise, and the server's draft is adopted |
| DraftMirror.ReviewSession.GetPostFeedback | client/client.js:676-687 | returns the post's entry, appended unliked and without comments only when missing |
| DraftMirror.ReviewSession.ToggleLike | client/client.js:689-717 | no change without an e-mail; else the like is flipped and sent, and a request that throws leaves only the created entry |
| DraftMirror.FlipBackRestores | client/client.js:696-715 | flipping a like and flipping it back restores the entries |
| DraftMirror.ToggleMatchesServer | client/client.js:696-708 | the page and the server agree on the like after a successful toggle |
| DraftMirror.ReviewSession.AddComment | client/client.js:769-800 | blank text or a failed request changes nothing; else the returned comment is appended to the post's entry |
| DraftMirror.ReviewSession.DeleteComment | client/client.js:802-827 | a refused request changes nothing; else exactly the comments with the id leave the entry |
| DraftMirror.DroppedCommentUndoesAdd | client/client.js:769-827 | deleting a just-added comment restores the entries |
| DraftMirror.ReviewSession.SubmitApproval | client/client.js:956-990 | success empties the draft; failure keeps it |
| ReviewClient.PostWall | client/client.js:167 | exactly the non-reel posts |
| ReviewClient.WallsSplitFeed | client/client.js:167-242 | every post is on exactly one wall, and the walls together are as long as the feed |
| ReviewClient.ReelTabComplementsPostWall | client/client.js:109-111 | off the grid tab the grid is the reel wall, which holds exactly the posts the post wall leaves out, so the two add up to the grid tab |
| ReviewClient.ReviewEntries | client/client.js:902-910 | exactly the liked or commented entries whose post is in the feed |
| ReviewClient.LikedPostIsReviewed | client/client.js:902-910 | liking a post of the feed puts it on the review panel |
| ReviewClient.BlankPanelExactly | client/client.js:902-950 | without an overall comment, the panel draws no entry and no empty notice exactly when the client reacted to some post and every post reacted to has left the feed |
| SingleReview.SingleView.LoadSingleState | client/single-client.js:51-86 | nothing without an id or without state; on success the first post or none; on failure the error account and no post |
| SingleReview.NoPostReviewThrows | client/single-client.js:562-568 | with no post the written condition throws, while the corrected one shows nothing |
| SingleReview.ConditionAgreesWhenLoaded | client/single-client.js:568-570 | with a post, the written and corrected conditions agree |
| SingleReview.AgreesWithFeedReview | client/single-client.js:568-570 | the single page reviews its post exactly when the feed page would list it for a one-post feed |
| DriveUpload.DefaultValidation | client/drive-upload.js:3-16 | with the shipped settings a file passes exactly when its type is one of the four and its size is at most 100 MiB |
| DriveUpload.TypeCheckedBeforeSize | client/drive-upload.js:9-14 | a refused type is reported whatever the size |
| DriveUpload.CapIsInclusive | client/drive-upload.js:12-14 | a file of exactly the cap passes, one byte more is too large |
| DriveUpload.Upload | client/drive-upload.js:28-89 | succeeds exactly when every guard passes and Drive created the file; a failed guard is the error; a success carries the file's id and name, `getViewUrl` of the id, and Drive's thumbnail link when it sent a non-empty one |
| DriveUpload.AuthenticationComesFirst | client/drive-upload.js:29-31 | without a token the upload fails as unauthenticated, whatever the file |
| DriveUpload.UploadNeedsValidFile | client/drive-upload.js:33-37 | a success had a valid file and a configured folder |
| DriveUpload.UploadedUrlIsCanonical | client/drive-upload.js:84-87 | the uploaded file's link carries its id and is left alone by the editor's rewriting |
| DriveUpload.ThumbnailFallback | client/drive-upload.js:88 | without a thumbnail link from Drive, the small thumbnail form of the same file is used |
| DriveToken.ExpiryFor | client/auth.js:29-30 | the expiry is at least five minutes out, and either that or the lifetime less five minutes |
| DriveToken.StoredLifetime | client/auth.js:29-30 | at least five minutes; a missing or zero lifetime counts as an hour; a long lifetime is shortened by five minutes |
| DriveToken.ExpiryReadsBack | client/auth.js:12 | the stored expiry text reads back as the number written |
| DriveToken.DriveSession.PersistToken | client/auth.js:26-36 | the token is kept, and stored with its expiry; the tab is authenticated afterwards exactly when the token is non-empty |
| DriveToken.DriveSession.LoadStoredToken | client/auth.js:9-24 | the stored token is adopted exactly when non-empty and unexpired, otherwise both keys are removed; the tab is authenticated afterwards exactly when it was before or the stored token was valid |
| DriveToken.PersistedTokenRestorable | client/auth.js:9-36 | a persisted token is restored by a later load exactly while its expiry has not passed |
| DriveToken.FailedLoadIsFinal | client/auth.js:17-19 | after a failed load nothing is left to restore |
| DriveToken.DriveSession.SignOut | client/auth.js:103-114 | a no-op without a token or Google's script; else the token is cleared from memory and storage and handed over for revocation; with Google's script loaded the tab is no longer authenticated, and after a real sign-out no stored token can be restored |
| Users.UserIndex | server/auth.js:39 | a user with the profile's Google id, none exactly when there is none |
| Users.NewUser | server/auth.js:43-51 | fails exactly when the profile has no e-mail or no photo list (the e-mail error first); else the id is `google_` followed by the Google id, the e-mail is the first one, the picture is the first photo or empty for an empty list, and both time stamps are the sign-in time |
| Users.UserStore.FindOrCreateUser | server/auth.js:35-63 | the store and the answer are those of `SignedIn` |
| Users.ReturningUserOnlyStamped | server/auth.js:55-58 | a known user only gets a new `lastLogin`, and the list keeps its length |
| Users.NewcomerAppended | server/auth.js:41-53 | an unknown user with an e-mail and a photo list is appended once, and an empty picture stands for an empty photo list |
| Users.SignInKeepsWellFormed | server/auth.js:35-63 | ids stay derived from Google ids, and Google ids stay unique |
| Users.SecondSignInAddsNobody | server/auth.js:39-58 | signing in again adds no user |
| Users.Deserialize | server/auth.js:91 | a user with that id, none exactly when there is none |
| Users.SessionRoundTrip | server/auth.js:83-92 | in a well-formed list, deserializing a serialized user gives back that user |
| Users.SignInThenSession | server/auth.js:35-92 | the user a sign-in returns is the one the session finds |

## Left out

- File-system and network I/O are left out. `readJson`/`writeJson`, `fs.*`, the image download and its redirects, Express routing, sessions and CORS become fields and parameters. A failed download is the `fetched` flag of `Cache.CacheStore.Download`.
- Drive REST calls, the Google token client, Passport and the permission call are left out. Their answers are parameters: `DriveAnswer`, `requestOk`, `ok`, `logged`, `loaded` and `response`.
- DOM rendering, HTML building, modals, client/ui.js, client/auth-client.js and client/login.js are left out.
- `getNearestAspectRatio`, `formatDate`, `formatTime` and ISO date strings are left out. They are floating point and locale formatting; dates are plain strings or integers.
- `uploadMultipleFiles` is left out. Its outcome depends on which parallel upload fails first.
- The `setInterval` scheduling of the cache cleanup is left out. Only one sweep is modelled.
- Concurrency between requests is left out. Every route runs to completion before the next begins.
- Editor.EditorState.HandleDrop: the tiles come from `state.posts`, so the `-1` index of a missing id is excluded by a precondition. What `splice(-1, …)` would do is not modelled.
- Editor.EditorState.RemoveCarouselImage: the index is a `nat`. A negative index, which `splice` counts from the end, is not modelled.
- Download: uses the corrected lookup, `GetExistingCachePath` as `Cache.Lookup` specifies it. The route at server/index.js:401 calls the lookup as written, which also prunes the live metadata of other types (first row of "## Findings"). `Cache.LookupAsWritten` models that behaviour on its own.
- Cache paths are `CachedImages/<folder>/<name>` strings. `path.join` normalisation (`..`, duplicate separators) is not modelled.
- DriveToken.NumberOf reads integers, white space and the empty string as `Number` does. Fractions, exponents, hexadecimal and `Infinity` read as `NaN`. A stored `Infinity` expiry, which `Number` reads as never expiring, would restore the token forever; that is not modelled. The page itself only stores integers.
- JsText.ParseInt reads decimal digits only. Hexadecimal prefixes and partial fractions are not modelled.
- Falsy values: `null`, `undefined` and `""` are one empty string, except where absence matters; there `Option` is used.
- DriveUpload.ValidateFile reads `allowedTypes` and `maxFileSize` from a parameter. The constants of client/config.js are `DefaultSettings`.
- Scheduler.SchedulerStore.Create mints the plan id from the clock. Id collisions between plans created in the same millisecond are not modelled.

## Findings

| source | as written | input that shows it | evidently intended | confidence | as-written member | corrected member |
|---|---|---|---|---|---|---|
| server/index.js:186-202 | `getExistingCachePath` looks for every entry in the folder of the requested type and deletes the metadata of any entry not found there | metadata holding a live `post` entry and a lookup for a `reel`: the post's entry is deleted | an entry is checked in its own type's folder, so only stale entries are pruned | high; not executed | Cache.LookupAsWritten, Cache.AsWrittenDropsOtherTypes | Cache.Lookup, Cache.LookupMeaning, Cache.CacheStore.GetExistingCachePath, Cache.CacheStore.Download, Cache.StoredImageIsServed |
| server/index.js:513-516 | `/api/cache/delete` joins each requested path to the project root and unlinks whatever exists there, so any project file goes, and a path with `..` segments reaches files outside the project (plain paths in the model cannot express `..`) | paths `["/Data/users.json"]`: the user store is deleted | only files of the cache folders are deleted | high; not executed | Cache.DeleteAsWritten, Cache.AsWrittenDeletesDataFiles | Cache.DeleteCachedOnly, Cache.CacheStore.DeleteCached, Cache.DeleteKeepsNonCacheFiles |
| client/single-client.js:562-568 | `renderReviewPanel` reads `post.id` of `state.post` at line 568, which is `null` when the feed has no posts or failed to load | a stored e-mail and a feed with no posts: the review button is shown (line 41) and opening the panel throws a TypeError | with no post there is nothing to review, as `renderSinglePost` does at line 94 | medium; not executed | SingleReview.ReviewConditionAsWritten, SingleReview.NoPostReviewThrows | SingleReview.ShowsPostFeedback, SingleReview.ConditionAgreesWhenLoaded, SingleReview.AgreesWithFeedReview |
