# OnlySkins core, modelled in Dafny

OnlySkins is a pay-per-view content site. It has an Express backend over
Postgres and a Next.js client. This project models the part of it that makes
decisions:

- **The purchase ledger.** A viewer's unlock of a creator's post comes from a
  direct purchase or a confirmed checkout. Its seven-day window is read in
  three places:
  - the creator's post listing;
  - the `/mine` endpoint;
  - the "My Purchases" page.
- **The follow graph.** This covers the toggle and unfollow handlers, the
  counts, the status lookup and the paginated follower/following lists.
- **The content tables.** These are posts with their media and pin flag,
  notifications, direct messages with the mass message's quote escaping, live
  streams, and the username search.
- **The account lifecycle.** This covers signup, login, and the one-hour
  password-reset token, in the current and the earlier (`auth_v1.1.js`)
  version of the routes.
- **The client logic.** This covers:
  - the notification text;
  - the search page's normalisation and row update;
  - the session state machine in `AuthContext.js`, with its fetch wrapper.

The database is one object, `Tables.Db`. Each table is a field of it: a
sequence of rows in table order, or a set for the follow edges. A handler
that writes is a method that updates those fields. Each method's `ensures`
gives the reply and the new tables for every branch of the handler. A
read-only query is a function over the tables, and lemmas state what its
result means.

Some values come from code the model cannot see. These are passed in as
parameters:
- the clock (`now`, in milliseconds);
- the ids the database hands out (`Db.serial`);
- bcrypt's hash and compare;
- signed and random tokens;
- the payment gateway's signature verdict;
- whether mail was sent;
- the outcome of a client request.

The reset step of `auth_v1.1.js` (`auth_v1.1.js:84-104`) is the same as the
one in `auth.js`. `Auth.ResetPassword` models both.

Some behaviours of the code are easy to miss. Each is stated by a lemma:

- **Which purchase the creator listing reads.** It reads the first purchase
  row of a post (`purchases.find`), not the most recent one. A repurchase after
  expiry therefore stays expired (`Creator.RepurchaseStaysExpired`).
- **Free posts.** Nothing special-cases them. A price-0 post that was never
  bought is reported locked (`Creator.FreePostIsNotUnlocked`).
- **Direct purchases and `/mine`.** A direct purchase (`ppv.js`) writes no
  `expires_at`, so it never appears in `/mine`
  (`Purchases.DirectPurchasesNeverInMine`).
- **The end of the window.** The creator listing treats a purchase as expired
  only once it is strictly older than seven days. `/mine` keeps a purchase
  only while `expires_at > now`. The two rules disagree at exactly one instant
  (`Ledger.RulesDisagreeOnlyAtBoundary`).
- **Username lookups.** The follow-status lookup ignores case, but the
  toggle's lookup is exact (`Follow.StatusLookupIgnoresCase`,
  `Follow.ToggleLookupIsExact`).
- **The search page and the search route do not match.**
  - The page fetches `/api/search?q=` and reads `results` from the reply.
  - The backend route is `/api/search/users` and answers `{ users }`.
  - Such a reply normalises to no rows (`SearchPage.NormaliseStates`).
- **A 401 while restoring the session** clears the token state and storage but
  not `tokenRef`. The stale token is then still attached to the next backend
  call (`AuthContext.StaleRefStillSent`).

Some column names differ between files; each pair is modelled as one field:
- `ppv.js` writes the buyer as `user_id`, while the other routes read
  `buyer_id`. Both are `Purchase.buyer`.
- `creator.js` reads a purchase's `created_at`, while `stripe.js` writes
  `purchase_date`. Both are `Purchase.at`.

## Model

Several handlers are modelled as plain functions whose meaning is stated by the lemmas in the rows below rather than by their own contracts: `Notifications.List`, `Messages.Inbox`, `Messages.Escape`, `Streams.Lookup`, `Stripe.Decide`, `Purchases.ListPurchases`, `Posts.ByUsername`, `Posts.Dashboard`, `Social.Followers`, `Social.Following`, `Follow.Status`, `Creator.View`, `CreatorV1.ViewV1` and `DashboardHeader.NotificationText`. Each appears in the contract of the lemma that states it.

| member | source | states |
|---|---|---|
| `Ledger.FirstPurchaseOf` | backend/routes/creator.js:160 | the purchase found is one of the viewer's rows for that post, and there is none exactly when no row names the post |
| `Ledger.FirstPurchaseIsEarliest` | backend/routes/creator.js:160 | the row found is the earliest matching row in table order |
| `Ledger.UnlockedByAgeIff` | backend/routes/creator.js:162-164 | the listing's rule keeps a purchase unlocked exactly while now <= at + 7 days |
| `Ledger.RulesDisagreeOnlyAtBoundary` | backend/routes/purchases.js:46 | the listing's rule and `expires_at > now` agree at every instant except purchase time + 7 days |
| `Ledger.OneSecondAroundTheWindow` | backend/routes/creator.js:163 | one second before the window closes both rules unlock; one second after, both have expired |
| `Creator.MapUserRowNormalises` | backend/routes/creator.js:24-36 | no row maps to null; otherwise the id, name and created_at are kept, an empty or missing optional text becomes null, a non-empty one is kept, and a missing bio becomes '' |
| `Creator.UserByName` | backend/routes/creator.js:45-51 | the user found matches the name under ILIKE (with `%` and `_` as wildcards and `\` as escape); none is found only when no user matches |
| `Creator.CreatorByName` | backend/routes/creator.js:121-127 | the user found matches under ILIKE (wildcards and escape as above) and has the creator role; none is found only when no such user exists |
| `Creator.GetProfile` | backend/routes/creator.js:41-63 | a name ending in a lone `\` is refused by the database: 500; otherwise 404 exactly when no username matches, and else the mapped, normalised profile of the first match |
| `Creator.SetBio` | backend/routes/creator.js:92-98 | the update sets the bio of the rows with that id and leaves every other row unchanged |
| `Creator.FindUserAfterSetBio` | backend/routes/creator.js:92-98 | the row the update returns is the first row with that id, now carrying the new bio |
| `Creator.UpdateBio` | backend/routes/creator.js:68-106 | a name ending in a lone `\`: 500; unknown name: 404; a requester who is missing or is not the owner: 403; none of these changes the users table. Otherwise the owner's bio becomes the given text ('' for a non-string) and the reply is the normalised profile of the first row with the owner's id, with the new bio; when ids are unique, as the primary key makes them, that is the owner's own row with the new bio |
| `Creator.MediaOfPosts` | backend/routes/creator.js:142-145 | the media query returns only rows of the listed posts |
| `Creator.MediaOfPostsKeeps` | backend/routes/creator.js:142-145 | restricting the media query to the listed posts loses none of a listed post's media |
| `Creator.MediaMapOfStates` | backend/routes/creator.js:147-151 | the map the media rows define has a key for exactly the posts with media, and each list is that post's media rows in table order |
| `Creator.BuildMediaMap` | backend/routes/creator.js:147-151 | the loop builds the map the media rows define, pushing each row in table order |
| `Creator.GetCreatorPosts` | backend/routes/creator.js:111-184 | the handler, built through the media-map loop, answers exactly the listing `CreatorPosts` over the tables |
| `Creator.ViewStates` | backend/routes/creator.js:159-177 | never bought: locked with the content kept; bought: unlocked until 7 days have passed and expired strictly after, with the content blanked exactly when expired; never both unlocked and expired |
| `Creator.CreatorPostsListing` | backend/routes/creator.js:131-177 | one view per post of the creator, newest first (a permutation of the creator's posts). Each entry is that post's view for the viewer's first purchase row of it (unlocked, expired, content and purchase time as `Creator.ViewStates` gives them), with exactly its media rows; userIsCreator exactly when the viewer is the creator |
| `Creator.CreatorPostsErrors` | backend/routes/creator.js:116-138 | an unknown viewer id gives 403 before anything else; then a name ending in a lone `\` gives 500, a name with no creator-role user gives 404, and a creator without posts gives [] |
| `Creator.RepurchaseStaysExpired` | backend/routes/creator.js:160-164 | an expired first purchase hides a later live purchase of the same post |
| `Creator.FreePostIsNotUnlocked` | backend/routes/creator.js:170-171 | a price-0 post never bought is locked and keeps its content |
| `CreatorV1.CreatorPostsV1Listing` | backend/routes/creator_v1.1.js:13-56 | a name ending in a lone `\` gives 500; 404 exactly when no user of any role matches the name; otherwise one entry per post row of that user, in query order, each that post's view for the viewer's first purchase row of it |
| `CreatorV1.ViewV1States` | backend/routes/creator_v1.1.js:39-56 | expired exactly when a purchase is older than 7 days; unlocked exactly when a purchase exists and has not expired; the content is blanked only when expired |
| `CreatorV1.ViewV1AgreesWithView` | backend/routes/creator_v1.1.js:43-52 | the earlier projection decides content, unlocked, expired and purchase time exactly as the current one |
| `Ppv.Purchase` | backend/routes/ppv.js:15-68 | missing post id: 400; any existing purchase of the pair, expired or not: "Already purchased"; unknown post: 404; none of these writes or advances the id counter. Otherwise one purchase row at the post's price in cents with no expiry, and one unlock notification for the creator carrying buyer_id and post_id |
| `Ppv.PurchaseTwice` | backend/routes/ppv.js:22-49 | after a successful purchase, buying the same post again answers "Already purchased" and writes nothing |
| `Stripe.CheckoutMetadata` | backend/routes/stripe.js:67-70 | the caller id is never empty, and the post id is '' exactly when none was given |
| `Stripe.Webhook` | backend/routes/stripe.js:85-115 | a failed signature gives 400; missing metadata gives 400; any other event type is acknowledged; none of these writes. A completed checkout appends its row, or nothing when the insert fails, and is acknowledged either way |
| `Stripe.ParseInt4` | backend/routes/stripe.js:103-106 | a text id bound to an integer column yields a value only within the 32-bit range |
| `Stripe.ParseId` | backend/routes/stripe.js:103-106 | an id is read exactly when the text is a 32-bit integer above 0, and it never exceeds the 32-bit maximum |
| `Stripe.PaddedId` | backend/routes/stripe.js:103-106 | white space around the digits and a leading `+` do not change the id, and digits name an id exactly when the number is between 1 and 2^31-1 |
| `Stripe.NegativeIdRefused` | backend/routes/stripe.js:103-106 | a negative number, padded or not, names no id |
| `Stripe.CheckoutRoundTrip` | backend/routes/stripe.js:67-107 | a completed checkout for a post comes back as a purchase of that post by the same caller, for the amount charged, expiring 7 days after it is recorded, whenever both ids fit in 32 bits; otherwise it is only acknowledged |
| `Stripe.CheckoutWithoutPostIsRefused` | backend/routes/stripe.js:97-100 | a checkout created without a post id never yields a purchase |
| `Stripe.InsertOnlyWhenVerified` | backend/routes/stripe.js:85-107 | only a verified completed checkout with both ids inserts, and its row expires exactly 7 days after it was recorded; an unverified event is exactly the rejected one |
| `Stripe.WebhookPurchaseUnlocked` | backend/routes/stripe.js:103-107 | a webhook purchase is unlocked under both expiry rules at once, and expired under both one second after 7 days |
| `Purchases.Join` | backend/routes/purchases.js:13-21 | each joined row is one of the caller's purchases, with the post it names and that post's creator |
| `Purchases.JoinKeepsEveryPurchase` | backend/routes/purchases.js:14-18 | when every purchase resolves, the join has one row per purchase row, so repeats are kept |
| `Purchases.ListPurchasesStates` | backend/routes/purchases.js:13-29 | the list is a permutation of the join, newest purchase first, and each entry carries the post's id, title, content and price, and its creator's username |
| `Purchases.Mine` | backend/routes/purchases.js:43-55 | each entry is a purchase of the caller whose expires_at is set and later than now, reported with purchased_at = expires_at − 7 days |
| `Purchases.MineComplete` | backend/routes/purchases.js:43-47 | every live purchase of the caller with an expiry is listed |
| `Purchases.WebhookPurchaseInMine` | backend/routes/purchases.js:50-55 | a live webhook purchase comes back with its own purchase time: the round trip through expires_at |
| `Purchases.DirectPurchasesNeverInMine` | backend/routes/purchases.js:46 | purchases without expires_at never appear |
| `PurchasesPage.DaysLeftZeroIff` | frontend/app/purchases/page.js:35-38 | no days are left exactly when the rebuilt expiry has passed |
| `PurchasesPage.DaysLeftInWindow` | frontend/app/purchases/page.js:38 | inside the window the count is between 1 and 7, and it is the number of started days before expiry |
| `PurchasesPage.BuildUnlockMap` | frontend/app/purchases/page.js:33-44 | the loop builds the map the entries define in order |
| `PurchasesPage.UnlockMapLastWins` | frontend/app/purchases/page.js:34-42 | a post's value is the one computed from its last entry |
| `PurchasesPage.UnlockMapKeys` | frontend/app/purchases/page.js:33-44 | the keys are exactly the listed posts |
| `PurchasesPage.UnlockMapValues` | frontend/app/purchases/page.js:34-42 | each value is computed from an entry of that post |
| `PurchasesPage.LoadUnlocks` | frontend/app/purchases/page.js:31-46 | a failed request leaves the map empty; otherwise it is the map of the entries |
| `PurchasesPage.FailedLoadLocksEverything` | frontend/app/purchases/page.js:46-77 | with an empty map every post renders locked |
| `PurchasesPage.MineEntryUnlocked` | frontend/app/purchases/page.js:39-42 | every `/mine` entry read at the server's clock is unlocked |
| `PurchasesPage.MineEntryLive` | backend/routes/purchases.js:43-55 | every `/mine` entry stands for a live purchase of the caller with an expiry |
| `PurchasesPage.MineKeysAreLivePurchases` | frontend/app/purchases/page.js:33-44 | a post has an entry exactly when the caller holds a live purchase of it with an expiry |
| `PurchasesPage.ShownIffLivePurchase` | frontend/app/purchases/page.js:56-78 | a purchased post's content shows exactly when the caller holds a purchase of it whose expires_at is set and still ahead |
| `Follow.UserNamed` | backend/routes/follow.js:19-25 | the exact-name lookup finds a user with that name, and none only when no user has it |
| `Follow.UserNamedIgnoringCase` | backend/routes/follow.js:150-156 | the lookup finds a user whose lowered name equals the lowered name asked for, and none only when no user matches |
| `Follow.Target` | backend/routes/follow.js:16-29 | succeeds exactly for a name that is not blank after `trim()` (JavaScript's white space and line terminators) and names an existing user other than the caller; a blank name gives 400 "username is required", an unknown user 404 "User not found" and the caller's own name 400 "You cannot follow yourself" |
| `Follow.Toggle` | backend/routes/follow.js:15-62 | on a rejected name nothing changes, the id counter included; otherwise the edge is deleted if present (no notification, counter unchanged) or inserted with one follow notice for the target, and the reply carries the counts after the change |
| `Follow.ToggleEdge` | backend/routes/follow.js:31-61 | a present edge is deleted with no notification and "Unfollowed"; an absent one is inserted with one follow notice for the target and "Followed"; the flag tells whether the edge is now there and the counts are those after the change |
| `Follow.ToggleTwiceRestores` | backend/routes/follow.js:32-47 | toggling the same edge twice restores the edge set |
| `Follow.CountsAfterToggle` | backend/routes/follow.js:128-141 | following adds one to the target's followers and to the viewer's following, and unfollowing takes one from both |
| `Follow.RemoveEdge` | backend/routes/follow.js:110-120 | deletes the edge; counts come back only when there was an edge to delete, otherwise "Already not following" with the table unchanged |
| `Follow.Unfollow` | backend/routes/follow.js:91-125 | never inserts; an absent edge answers "Already not following" with nothing changed; a present edge is deleted and the counts are returned |
| `Follow.StatusIff` | backend/routes/follow.js:144-170 | 404 exactly when no username matches in any case; true exactly when the viewer's edge to the user found exists |
| `Follow.StatusLookupIgnoresCase` | backend/routes/follow.js:150-153 | with a single user "Ann", "ann" has a status |
| `Follow.ToggleLookupIsExact` | backend/routes/follow.js:19-25 | with a single user "Ann", toggling "ann" is 404 |
| `Social.ParsePageLimit` | backend/routes/social.js:21-27 | the page is at least 1, the limit is within [1, 100], and offset = (page − 1) · limit |
| `Social.ParsePageLimitStates` | backend/routes/social.js:21-27 | page 1 and 25 rows by default; a positive page is kept and any other page is read as 1; a limit outside [1, 100] is clamped |
| `Social.PagesCover` | backend/routes/social.js:77 | page < totalPages exactly when page · limit < total; the pages cover every row, and the last page is not empty |
| `Social.PaginationStates` | backend/routes/social.js:77-87 | hasNext exactly when rows remain past this page; hasPrev exactly when this is not the first page; totalPages ≥ 1 and covers the total |
| `Social.ListPageStates` | backend/routes/social.js:55-75 | a page is the offset..offset+limit slice of the users in username order; each row says whether the viewer follows that user |
| `Social.EveryRowFromList` | backend/routes/social.js:55-75 | each row comes from a user of the list being paged |
| `Social.ListsHoldOnlyEdges` | backend/routes/social.js:38-151 | 404 exactly for an unknown user; every follower row has an edge into the target and every following row an edge out of it |
| `Posts.KindOfIsSuffixTest` | backend/routes/posts.js:113-124 | a URL is typed video exactly when it ends in ".mp4" in any case |
| `Posts.MediaRows` | backend/routes/posts.js:113-124 | one media row per URL, in order, all for the new post |
| `Posts.Create` | backend/routes/posts.js:98-135 | a missing title or content becomes '', price 0 and pinned false; the post is appended, followed by its media rows |
| `Posts.CreatedMediaReadBack` | backend/routes/posts.js:113-124 | reading the new post's media back gives the submitted URLs in order, each typed by its suffix |
| `Posts.Delete` | backend/routes/posts.js:138-160 | unknown post: 404; not the owner: 403; neither changes a table. Otherwise the post and its media rows are removed |
| `Posts.DeleteRemovesExactly` | backend/routes/posts.js:152-155 | exactly the post's rows go, and every other post and its media stay |
| `Posts.Pin` | backend/routes/posts.js:76-95 | no ownership check; an unknown id gives 404 and nothing changes; otherwise the flag is set and the updated row returned |
| `Posts.PinChangesOnlyTheFlag` | backend/routes/posts.js:81-90 | only is_pinned of the named post changes, and reading it back shows the new flag |
| `Posts.FindAfterSetPinned` | backend/routes/posts.js:81-90 | after the update the lookup finds the post with its new flag; an unknown id changes nothing |
| `Posts.DashboardRows` | backend/routes/posts.js:27-48 | the dashboard holds the caller's posts (a permutation of them), each with its media URLs |
| `Posts.DashboardOrder` | backend/routes/posts.js:31-41 | pinned posts come first, newest first within each group |
| `Posts.AuthoredStates` | backend/routes/posts.js:55-66 | each listed pair is a post with its author, whose name matches ignoring case |
| `Posts.AuthoredComplete` | backend/routes/posts.js:59-62 | every post whose author's name matches ignoring case is paired with that author |
| `Posts.ByUsernameStates` | backend/routes/posts.js:51-73 | each public row is a post whose author matches the name ignoring case, with that post's media URLs; every such post is listed with its author's name and avatar; newest first |
| `Notifications.ListStates` | backend/routes/notifications.js:10-21 | all of the caller's notifications and only theirs, newest first |
| `Notifications.ReadAll` | backend/routes/notifications.js:26-37 | the table becomes the caller's rows marked read |
| `Notifications.ReadAllStates` | backend/routes/notifications.js:28-31 | every notification of the caller is read afterwards, only its read flag changed, and every other row stays |
| `Notifications.ReadAllIdempotent` | backend/routes/notifications.js:28-31 | marking all read twice is marking all read once |
| `Notifications.Create` | backend/routes/notifications.js:42-60 | a missing user_id or type gives 400, no insert and an unchanged id counter; otherwise one unread notification with metadata defaulting to {} |
| `Messages.EscapeRoundTrip` | backend/routes/messages.js:22 | reading the escaped literal back gives the original message, and the literal has no unpaired quote |
| `Messages.FanOut` | backend/routes/messages.js:21-27 | one unread message per subscriber, in order, from the caller, with the message as content |
| `Messages.MassMessage` | backend/routes/messages.js:7-34 | no subscribers: 400; a missing message: 500; neither inserts nor advances the id counter. Otherwise exactly the fan-out rows are inserted |
| `Messages.InsertFanOut` | backend/routes/messages.js:21-27 | the insert loop appends exactly the fan-out rows, with consecutive ids from the counter, and advances the counter by the number of recipients |
| `Messages.Send` | backend/routes/messages.js:37-52 | exactly one unread message from the caller is inserted |
| `Messages.AddressedStates` | backend/routes/messages.js:59-66 | each joined row is a message addressed to the caller whose sender exists, with that sender's username |
| `Messages.AddressedComplete` | backend/routes/messages.js:59-66 | every message addressed to the caller whose sender exists is joined, with that sender's username |
| `Messages.InboxStates` | backend/routes/messages.js:55-73 | the inbox is a permutation of the joined rows: exactly the messages addressed to the caller whose sender exists, each with its sender's username, newest first |
| `Messages.Read` | backend/routes/messages.js:76-95 | 400 and no change unless some message has that id and the caller as recipient; otherwise that message is marked read |
| `Messages.MarkReadStates` | backend/routes/messages.js:81-88 | only the caller's message with that id becomes read, and a message to anyone else is never touched |
| `Messages.MarkReadNoMatch` | backend/routes/messages.js:81-88 | when nothing matches the table is unchanged |
| `Auth.Signup` | backend/routes/auth.js:21-53 | the role defaults to subscriber and any other role than creator or subscriber is 400; an existing email or username (exact) is 400; neither inserts nor advances the id counter. Otherwise one user is appended and the session carries its fields |
| `Auth.SignupTakesNameAndEmail` | backend/routes/auth.js:29-36 | once a user exists, neither their username nor their email can sign up again |
| `Auth.FindByIdentifier` | backend/routes/auth.js:64-70 | the user found matches the identifier by email or username ignoring case; none only when no user does |
| `Auth.Login` | backend/routes/auth.js:58-94 | succeeds exactly for a found user whose password matches; an unknown identifier and a wrong password give the same 400 "Invalid credentials"; a success carries the given token and the first matching user's account |
| `Auth.FirstIdentified` | backend/routes/auth.js:64-70 | the lookup finds the earliest user row the identifier names |
| `Auth.LoginByEitherName` | backend/routes/auth.js:64-89 | a user logs in by their username or their email, in any case, when no earlier row is named by the same identifier |
| `Auth.UserWithEmail` | backend/routes/auth.js:103-106 | the exact email lookup finds a user with that email, and none only when no user has it |
| `Auth.Forgot` | backend/routes/auth.js:99-136 | an unknown email gives 400 and no row; otherwise one reset row expiring an hour from now, answered 500 if the mail fails |
| `Auth.FindReset` | backend/routes/auth.js:144-148 | the row found holds the token and expires after now; none only when no row does |
| `Auth.FindResetAppend` | backend/routes/auth.js:144-148 | when no older row redeems the token, the lookup finds an appended row exactly when that row redeems |
| `Auth.SetPasswordStates` | backend/routes/auth.js:150-152 | only the password of that user's rows changes |
| `Auth.ResetPassword` | backend/routes/auth.js:141-161 | a token not held by an unexpired row gives 400 and nothing changes; otherwise the password is set and every reset row of that user is deleted |
| `Auth.ResetConsumesTokens` | backend/routes/auth.js:153-154 | after a reset the user has no reset row left, so the token cannot be redeemed again |
| `Auth.ForgotThenReset` | backend/routes/auth.js:108-115 | a fresh token redeems for its user strictly before one hour has passed, and not from the hour on |
| `AuthV1.Signup` | backend/routes/auth_v1.1.js:13-33 | an existing email or username gives 400, no insert and an unchanged id counter; otherwise one user with no role is appended |
| `AuthV1.Login` | backend/routes/auth_v1.1.js:38-54 | exact email only; succeeds exactly for a found user whose password matches, and gives the same 400 otherwise; a success carries the given token and the id, username and email of the first user with that email |
| `AuthV1.FirstWithEmail` | backend/routes/auth_v1.1.js:41-46 | the lookup finds the earliest row with that email |
| `AuthV1.LaterLoginAcceptsEarlierLogins` | backend/routes/auth_v1.1.js:41-46 | when no earlier row is named by a user's email (as username or email, ignoring case), a login by that email that the earlier version accepts is also accepted by the later version |
| `AuthV1.Forgot` | backend/routes/auth_v1.1.js:59-79 | an unknown email gives 400; otherwise a one-hour reset row, with the same token returned in the reply |
| `Streams.StreamKey` | backend/routes/streams.js:22-31 | the key is the creator id's digits, then '-', then the millisecond's digits |
| `Streams.StreamKeyInjective` | backend/routes/streams.js:22-31 | keys of different creators or different milliseconds differ |
| `Streams.Start` | backend/routes/streams.js:20-37 | one live stream for creator 1 is appended, keyed "<creator>-<now>", and returned |
| `Streams.Stop` | backend/routes/streams.js:44-56 | always success; the table becomes the stopped table |
| `Streams.StopStates` | backend/routes/streams.js:46-50 | only the stream with that id goes off-air, nothing else about it changes, and stopping again changes nothing |
| `Streams.CreatorNamed` | backend/routes/streams.js:66-70 | the exact-name lookup finds a user with that name, and none only when no user has it |
| `Streams.LiveOfMembership` | backend/routes/streams.js:73-79 | the live query returns exactly the creator's streams with the live flag set |
| `Streams.LookupStates` | backend/routes/streams.js:62-87 | unknown name: 404; not live exactly when none of the creator's streams is live; otherwise a live stream of theirs that no other live stream of theirs is newer than |
| `Search.SearchUsers` | backend/routes/search.js:11-31 | 400 "Missing search query" exactly when q is missing or empty |
| `Search.LowerPattern` | backend/routes/search.js:23 | the pattern is the lowered query between '%' signs |
| `Search.SearchPatternAccepted` | backend/routes/search.js:20-24 | the wrapped pattern never ends in a lone escape, so the database never refuses it |
| `Search.MatchesQueryIsSubstring` | backend/routes/search.js:20-24 | with no wildcard and no backslash in q, a user matches exactly when their lowered name contains the lowered q |
| `Search.TrailingBackslashQuery` | backend/routes/search.js:20-24 | the query `a\` escapes the closing '%': it finds exactly the names that end in "a%" |
| `Search.WildcardQueries` | backend/routes/search.js:23 | "_" matches every non-empty username and "%" matches every user |
| `Search.SearchUsersStates` | backend/routes/search.js:20-26 | the results are exactly the matching users in table order, each with only id, username, bio and role |
| `DashboardHeader.PostIdText` | frontend/app/components/DashboardHeader.js:14 | the post id prints as its digits, or "undefined" when missing |
| `DashboardHeader.RoleMattersOnlyForFollowAndUnlock` | frontend/app/components/DashboardHeader.js:13-23 | a creator and any other role read different text exactly for follow and unlock notices; every other kind reads the same for all |
| `DashboardHeader.NotificationTextDependsOnKindRolePost` | frontend/app/components/DashboardHeader.js:13-23 | the text depends only on the kind, the role and metadata.post_id |
| `DashboardHeader.BackendNoticesRead` | frontend/app/components/DashboardHeader.js:15-17 | the backend's unlock notice reads as "Someone unlocked post #<id>" and its follow notice as a new follower, for the creator |
| `DashboardHeader.NotificationList` | frontend/app/components/DashboardHeader.js:25-34 | a missing or empty list shows "No notifications yet"; otherwise one line per notification, in order |
| `SearchPage.Kept` | frontend/app/search/page.js:16 | exactly the truthy parts are kept, none of them empty |
| `SearchPage.ClassNamesEmptyIff` | frontend/app/search/page.js:15-17 | the class string is empty exactly when no part is truthy |
| `SearchPage.SplitJoin` | frontend/app/search/page.js:16 | splitting words joined by single spaces gives the words back |
| `SearchPage.ClassNamesRoundTrip` | frontend/app/search/page.js:15-17 | for names without spaces, the class string lists exactly the truthy parts in order, separated by single spaces |
| `SearchPage.CanSearchIff` | frontend/app/search/page.js:39 | a search runs exactly when the query holds a character that `trim()` keeps (anything but JavaScript's white space and line terminators) |
| `SearchPage.OrElse` | frontend/app/search/page.js:75 | the avatar is a non-empty string, and null exactly when both fields are falsy |
| `SearchPage.NormaliseStates` | frontend/app/search/page.js:65-81 | an array is taken as is, else results when it is an array, else []; each row keeps id, name and role; the avatar is the first truthy field; the flag is the boolean if given, else the truthiness of following |
| `SearchPage.ApplyToggleStates` | frontend/app/search/page.js:117-121 | only the flag of the row at the index changes, and an index out of range changes nothing |
| `SearchPage.Results.constructor` | frontend/app/search/page.js:36-37 | the page starts with no rows, no error and no stored follow change |
| `SearchPage.Results.Run` | frontend/app/search/page.js:44-88 | a blank query clears the rows and error; a failed request keeps the rows and shows the response text or "Search failed with <status>"; a reply replaces the rows with its normalised users |
| `SearchPage.Results.HandleFollowToggle` | frontend/app/search/page.js:97-133 | without a token or on a non-ok reply the rows and the stored entry stay; otherwise the row at the index takes the truthiness of the reply's following, and the reply's followers and following are stored with the time |
| `SearchPage.WireAsWrittenFlagIsCount` | backend/routes/follow.js:60-61 | as written, the reply's following is truthy exactly when the viewer follows anyone at all |
| `SearchPage.StaleFollowFlagAsWritten` | frontend/app/search/page.js:117-121 | as written, a viewer following users 2 and 3 who unfollows 2 still sees 2 as followed |
| `SearchPage.RowTracksEdge` | frontend/app/search/page.js:117-121 | with the boolean kept in the reply, the row shows exactly whether the edge exists after the toggle |
| `AuthContext.Normalised` | frontend/app/context/AuthContext.js:114-119 | the session user has exactly the id, username, email and role of the data |
| `AuthContext.NormalisedDropsExtras` | frontend/app/context/AuthContext.js:114-119 | nothing beyond those four fields reaches the session |
| `AuthContext.Outgoing` | frontend/app/context/AuthContext.js:164-171 | the caller's header is kept; otherwise "Bearer <token>" is added exactly when a token exists and the URL is a backend URL |
| `AuthContext.StaleRefStillSent` | frontend/app/context/AuthContext.js:79-85 | the token left in the ref after a 401 on restore is still sent to the backend |
| `AuthContext.OnlyBackendGetsToken` | frontend/app/context/AuthContext.js:151-158 | a URL that does not parse or lies outside the backend never gets the token |
| `AuthContext.Session.constructor` | frontend/app/context/AuthContext.js:47-50 | a fresh provider is loading, with no user or token, over the stored entries |
| `AuthContext.Session.Persist` | frontend/app/context/AuthContext.js:32-37 | the token entry is written; the user entry only when there is a user |
| `AuthContext.Session.ClearPersisted` | frontend/app/context/AuthContext.js:39-42 | both storage entries are removed |
| `AuthContext.Session.Login` | frontend/app/context/AuthContext.js:113-124 | the same token in state, ref and storage, and the same four-field user in state and storage |
| `AuthContext.Session.Logout` | frontend/app/context/AuthContext.js:126-131 | token state, ref, user and both storage entries are cleared |
| `AuthContext.Session.Restore` | frontend/app/context/AuthContext.js:47-108 | loading ends. No stored token: the parsed stored user is restored, an unparseable one removed. 401: user, token and storage cleared but the ref kept. Other failures keep the restored state. A profile replaces the user in state and storage |
| `AuthContext.Session.Fetch` | frontend/app/context/AuthContext.js:160-183 | the header sent is the one the current ref decides; a 401 from a backend URL logs out, and anything else changes nothing |
| `AuthContext.Window.constructor` | frontend/app/context/AuthContext.js:144 | a new window is unpatched and satisfies the invariant: at most one install, and one exactly when the flag is set |
| `AuthContext.PatchFetch` | frontend/app/context/AuthContext.js:140-195 | without a window nothing happens; otherwise the window ends up patched, with a wrapper installed only if it was not patched before; the invariant is kept, so the wrapper is installed exactly once |

## Findings

| source | as written | input that shows it | evidently intended | confidence | as-written member | corrected member |
|---|---|---|---|---|---|---|
| backend/routes/follow.js:38 | The toggle reply `{ message, following: false, ...counts }` spreads the counts last. The counts' `following` field is the viewer's following count, and it overwrites the boolean. The search page then sets `is_following: !!data.following` (frontend/app/search/page.js:119). | A viewer follows users 2 and 3 and unfollows 2. The reply's `following` is 1, which is truthy, so the row for user 2 still shows "following". | `following` tells whether the edge exists after the toggle, and the counts sit beside it. | not executed | `SearchPage.StaleFollowFlagAsWritten` | `SearchPage.RowTracksEdge` |

`Follow.WireAsWritten` is the reply as written, and
`SearchPage.WireAsWrittenFlagIsCount` shows that its flag is the count.
`Follow.Wire` is the corrected reply.

## Left out

- `Stripe.ParseInt4`: the underscores between digits and the `0x`, `0o` and `0b` prefixes that PostgreSQL 16 accepts in integer input are not modelled; such text reads as no value.
- `Stripe.ParseId`: a number below 1 is read as no id. No row has such an id, so the model assumes the foreign keys reject the insert, and the handler swallows that failure either way.
- Rate limiters (`express-rate-limit`) are left out: their state lives inside the library.
- Calls to the payment gateway SDK are left out: account onboarding, session creation and the signature check. The check's verdict is the `signatureValid` parameter.
- The cryptographic and mail libraries are not modelled: bcrypt hashing and comparison, JWT signing, random bytes and nodemailer. Their results are parameters: `hashed`, `matches`, `token` and `mailSent`.
- The 500 replies of the `catch` blocks for database failures are left out. The exceptions are the ones the handlers reach by their own logic: the swallowed webhook insert, the mail failure in forgot-password, the missing mass message, and a username pattern the database refuses.
- Concurrency is not modelled: handlers run one at a time. This excludes the check-then-insert races in the purchase and follow handlers, a profile request that settles after another event, and a search cancelled by a newer query. Post creation inserts its media rows with `Promise.all`, so their table order is not guaranteed; `Posts.Create` and `Posts.CreatedMediaReadBack` fix them in the submitted order.
- Floating point is left out. A post's price is held in integer cents, and the direct purchase records it as is. This stands for `Math.round(price * 100)` on a price in dollars.
- The `if (creatorId)` guard before the unlock notification always passes in the model, because every post row has a positive creator id.
- Date parsing and ISO formatting are left out: every time is an integer number of milliseconds.
- The order of rows that compare equal under an `ORDER BY` is not modelled. The model uses a stable sort, while SQL leaves ties unspecified. The order of `json_agg` and of `ANY($1)` results is table order.
- URL and request parsing are left out. The fetch wrapper receives the URL already resolved (`None` when it does not parse), and post creation receives the media pathnames.
- Collation and Unicode case folding are not modelled. `LOWER`/`ILIKE` fold only ASCII letters, and username order is code-point order.
- The `user` entry in local storage is either a parsed user or unparseable text. A stored JSON `null` or non-object is not modelled.
- A response body that is not JSON (`res.json().catch`) is not modelled.
- `backend/routes/uploads.js` is not part of this model. It is file-system I/O and does not parse as shown.
- Files with no decision logic are left out: the plain CRUD routes, server wiring and React rendering.
- Missing request fields are modelled only where the handler inspects them. Elsewhere, in every route, the body fields are taken as given values: for example `Posts.Pin` takes `is_pinned` as a `bool`, while a request without it writes NULL into the column.
- Creator.GetProfile, Creator.UpdateBio, Creator.CreatorPosts, CreatorV1.CreatorPostsV1: a username ending in a lone `\` is answered 500 whatever the table holds. The database raises its error only when matching some row reaches that escape, so for some tables such a name still gives 404 or a row.
- Users are looked up by id as the first row with that id (`Tables.FindUser`). The primary key on `users.id` is not a `Db` invariant; `Tables.UniqueUserIds` states it where a contract needs it. Social.FollowerUsers and Social.FollowedUsers equal the SQL join only when ids are unique.
- Storage failures are not modelled: the `try`/`catch` around the `onlyskins:follow-changed` write in `SearchPage.Results.HandleFollowToggle` always succeeds in the model.
- `Notifications.ReadAll`: the reply's constant message is not returned, because the method's result is the new table.
- `AuthV1.Signup`: the `role` column is left to the table default, which is not part of this model, so the new row's role is `None`.
- `AuthContext.Session.Restore`: aborting the profile request on unmount is not modelled, because the request is assumed to settle first.
- `AuthContext.Session.Restore`: a stored `user` that is the empty string is falsy, so the code neither parses nor removes it; the code thus treats it as it treats a missing one, and the model has no such stored value.
