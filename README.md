# KUYOU: a verified model of the points and resolution rules

KUYOU lets people confess an embarrassing memory (a "black history") and lets others answer
it kindly. This project models three parts of the repository in Dafny and proves properties of
each.

- **The Rails server** (`server/`) keeps users, posts, replies and sympathies.
  - Its four workflows are creating a post, creating a reply, giving or removing a sympathy, and
    selecting the best reply. Each earns fixed points through a ledger that never lowers a
    balance.
  - A content filter refuses blank text, NG words and personal information before anything is
    stored. Posts are signed with a generated pseudonym.
  - The store is a class with one map per table (`ServerStore.Store`). Beside it, the same steps
    are written as pure functions over a value-level store (`ServerRecords`, `ServerServices`).
    Every method is proved to leave the tables exactly as its function says. Each transaction
    either returns the new store or an error with the old store.
  - `ServerInvariants` proves that every workflow keeps a valid store valid:
    - each post's `sympathy_count` equals its number of sympathy rows;
    - there is at most one sympathy per user and post;
    - a resolved post has exactly one best reply, and an active post has none;
    - a post never goes from resolved back to active;
    - no workflow lowers a balance.
  - Destroying a user keeps the store consistent. It can, however, leave a resolved post without
    a best reply, because the cascade deletes the best reply with its author while the post
    stays resolved (`ServerInvariants.DestroyUserCanOrphanResolvedPost`).
  - The controllers are functions from the store and the request to the new store and the
    response. The read side covers the listing, the profile statistics and the ranking with
    masked emails.
- **The local prototype client** (`KUYOU/`) is a single-user app. It keeps histories, rewrites
  and one user in the device's defaults.
  - Its store (`KuyouStorage.Storage`) and each screen's view model are classes whose methods
    change their fields and the store.
  - Saving keeps ids unique; posting, rewriting, liking, choosing a best answer and giving
    salvation award the client's own points and achievements.
  - The timeline shows exactly the histories that match, as a sorted permutation.
  - The level switches agree with one threshold table.
- **The networked client** (`ios/KUYOU/`) is modelled in three parts:
  - The sign-in form's checks: the email pattern is decided by one split at the first at sign
    and the last dot.
  - The fallback name `displayNickname`, proved equal to the server's reply pseudonym.
  - The timeline's paging and sympathy toggle. Each request is returned to the caller, and the
    response and the completion arrive through methods of their own. The model proves that
    `isLoadingMore` is never cleared. Once a load-more has started, no later
    `loadMoreIfNeeded` loads anything.

Randomness, identifiers and clocks are parameters: the nickname draw, `UUID()` and `Date()`.
The signed-in user is an input to every action.

Some of the server's code does not do what it evidently means to do (see "## Findings"). Where
that happens, the model carries both behaviours. The as-written one is selected by a parameter
(`ServiceDispatch.DeclaredPrivate`, `ServerControllers.RendersOnly`) or is a separate member.
Every intended property is proved of the corrected behaviour.

Places where a first reading of the code misleads are modelled as the code behaves:
- `Reply`'s `ensure_post_is_active` (server/app/models/reply.rb:14,18-20) only adds an error and
  never aborts. The one real guard is the service's resolved-post check
  (`ServerRecords.ReplyRecordIgnoresStatus`).
- The sympathy decrement has no floor (server/app/models/sympathy.rb:19-21).
- A profile update runs Devise's `validatable` before the model's own checks. Devise
  strips and downcases the email, and checks its pattern and uniqueness when it changes
  (server/app/models/user.rb:4-5). The model's uniqueness check compares under the table's
  case-insensitive collation (server/app/models/user.rb:14).
- A nickname of more than 30 characters passes every validation. The column then refuses it,
  and nothing rescues the error, so the answer is a 500 (server/db/schema.rb:57,
  `ServerControllers.ProfilesUpdateLongNickname`).
- The category filter compares under the posts table's collation, so `?category=LOVE` lists
  the "love" posts (`ServerModels.ByCategoryIgnoresCase`).

## Model

| member | source | states |
|---|---|---|
| `Points.PointRule` | server/app/services/points/calculate_service.rb:3-10 | the table lists the six actions with non-negative amounts and has no entry for any other action |
| `Points.ResolveAmount` | server/app/services/points/calculate_service.rb:25 | an explicit amount wins even when it is zero or negative; without one the table's amount, and zero for an unlisted action |
| `Points.Calculate` | server/app/services/points/calculate_service.rb:24-35 | a nil user is the rescued error; otherwise exactly a positive resolved amount is added and the reported total is the old balance plus the points added |
| `Points.CalculateNeverLowers` | server/app/services/points/calculate_service.rb:27-31 | for any action and amount the award succeeds on a user and never lowers the balance |
| `Points.DefaultAmounts` | server/app/services/points/calculate_service.rb:4-9 | the default amounts are 10, 0, 1, 5, 50 and 30 |
| `NicknameGenerator.AdjectiveFacts` | server/app/services/utils/nickname_generator.rb:3-6 | each adjective has three to eight characters, no `#`, and is recognised by its first character |
| `NicknameGenerator.NounFacts` | server/app/services/utils/nickname_generator.rb:8-11 | each noun has two to five characters, no `#`, and is recognised by its first character |
| `NicknameGenerator.Compose` | server/app/services/utils/nickname_generator.rb:18 | the nickname is the adjective, the noun, one `#` and the number, and for `#`-free words the only `#` is the fifth character from the end |
| `NicknameGenerator.Format` | server/app/services/utils/nickname_generator.rb:16-18 | the nickname is 10 to 18 characters long, has one `#`, and ends in four digits that spell the drawn number and are never `0000` |
| `NicknameGenerator.PadToFour` | server/app/services/utils/nickname_generator.rb:16 | a number in 1..9999 padded to four places is four characters and not `0000` |
| `NicknameGenerator.Generate` | server/app/services/utils/nickname_generator.rb:13-19 | for any draw the nickname has the shape above and its last four digits are the drawn number |
| `NicknameGenerator.Recover` | server/app/services/utils/nickname_generator.rb:3-11 | reading a nickname back gives indices within the two lists |
| `NicknameGenerator.RecoverShape` | server/app/services/utils/nickname_generator.rb:18 | a string of the composed shape is read back into its adjective, noun and number |
| `NicknameGenerator.RecoverGenerate` | server/app/services/utils/nickname_generator.rb:13-19 | reading the generated nickname back gives the draw that produced it |
| `NicknameGenerator.GenerateInjective` | server/app/services/utils/nickname_generator.rb:13-19 | different draws give different nicknames |
| `ContentFilters.ReasonMessage` | server/app/services/content_filters/validate_service.rb:24-26 | every refusal carries a non-empty message |
| `ContentFilters.ReasonMessagesDistinct` | server/app/services/content_filters/validate_service.rb:24-26 | the three messages differ, so the message tells the reason |
| `ContentFilters.Validate` | server/app/services/content_filters/validate_service.rb:23-37 | content passes iff it is not blank, holds no NG word and matches no personal-information pattern; each refusal holds exactly when the earlier checks pass and its own check fails |
| `ContentFilters.BarePhoneRefused` | server/app/services/content_filters/validate_service.rb:8 | a phone number standing alone is refused as personal information |
| `ContentFilters.BareNgWordRefused` | server/app/services/content_filters/validate_service.rb:3-5 | an NG word standing alone is refused as an NG word |
| `ContentFilters.PhoneInsideSentenceAccepted` | server/app/services/content_filters/validate_service.rb:8 | a phone number written against kana on both sides has no `\b` around it and passes |
| `ServerRecords.AddPoints` | server/app/models/user.rb:18-20 | the user's balance rises by the amount with no validation, and no other user or field changes |
| `ServerRecords.BumpSympathyCount` | server/app/models/sympathy.rb:15-21 | the post's count moves by the delta with no floor and no other post changes |
| `ServerRecords.NewPost` | server/db/schema.rb:19-20 | a new post is active with no sympathies |
| `ServerRecords.NewReply` | server/db/schema.rb:31 | a new reply is not the best answer |
| `ServerRecords.CreatePostRecord` | server/app/models/post.rb:11-14 | the insert happens iff the validations find no error, under the next id; otherwise the errors are returned and nothing changes |
| `ServerRecords.CreateReplyRecord` | server/app/models/reply.rb:7-20 | the insert happens iff the validations find no error; the callback's error on a resolved post does not stop it |
| `ServerRecords.ReplyRecordIgnoresStatus` | server/app/models/reply.rb:14-20 | a valid reply to a resolved post is stored |
| `ServerRecords.CreateSympathyRecord` | server/app/models/sympathy.rb:7-17 | the insert happens iff the validations (one sympathy per user and post) pass, and then the post's count rises by one |
| `ServerRecords.DestroySympathyRecord` | server/app/models/sympathy.rb:11-21 | the row is removed and its post's count drops by one |
| `ServerRecords.CreateThenDestroySympathy` | server/app/models/sympathy.rb:10-21 | creating a sympathy and destroying it restores the store but for the id counter |
| `ServerRecords.ResolveWithBestReply` | server/app/models/post.rb:24-31 | both saves pass and the post is resolved and the reply the best, or a validation fails and nothing is written |
| `ServerRecords.ResolveSucceedsWhenConsistent` | server/app/models/post.rb:24-31 | in a store whose rows pass their validations the transaction succeeds |
| `ServerRecords.DestroyPostRecord` | server/app/models/post.rb:4-5 | the post goes with exactly its replies and sympathies, and the rest is kept |
| `ServerRecords.SympathiesBy` | server/app/models/user.rb:11 | the rows counted are exactly the user's sympathies on the post |
| `ServerRecords.DestroyUserRecord` | server/app/models/user.rb:9-11 | the user goes with their posts (and those posts' rows), their replies and their sympathies, and each remaining post loses one count per sympathy of the user |
| `ServerModels.CategoriesNotBlank` | server/app/models/post.rb:13 | no allowed category is blank, so the presence check never fires for an allowed one |
| `ServerModels.PostFieldErrors` | server/app/models/post.rb:11-14 | a post has no field error iff its nickname is present and at most 50 characters, its content present and at most 1000, its category one of the six and its count non-negative |
| `ServerModels.PostErrors` | server/app/models/post.rb:3 | a post is valid iff its owner exists and its fields are valid |
| `ServerModels.ReplyFieldErrors` | server/app/models/reply.rb:7 | a reply has no field error iff its content is present and at most 500 characters |
| `ServerModels.ReplyErrors` | server/app/models/reply.rb:3-7 | a reply is valid iff its post and its author exist and its content is valid |
| `ServerModels.SympathyErrors` | server/app/models/sympathy.rb:3-7 | a sympathy is valid iff its post and user exist and the user has none on that post yet |
| `ServerModels.UserErrors` | server/app/models/user.rb:4-15 | a user row is valid iff its email is not blank, matches Devise's pattern whenever it changes, and is held by no other user up to ASCII case, and its balance is non-negative; the errors come in declaration order, Devise's before the model's |
| `ServerModels.UserErrorsNamed` | server/app/models/user.rb:4-14 | the row is reported as invalid exactly when its email changes, is not blank and fails the pattern, and as taken exactly when another user holds it up to case |
| `ServerModels.TakenIsTakenIgnoringCase` | server/app/models/user.rb:14 | an email another user holds byte for byte is also caught by the collation-based uniqueness check |
| `ServerModels.NormalizedEmail` | server/app/models/user.rb:4-5 | the email that reaches the validations has no ASCII capital and no null or ASCII white space at either end, and is no longer than the one sent |
| `ServerModels.NormalizedEmailIdempotent` | server/app/models/user.rb:4-5 | normalising a normalised email changes nothing |
| `ServerModels.Strip` | server/app/models/user.rb:4-5 | `strip` leaves no null or ASCII white space at either end and never lengthens the string |
| `ServerModels.StripClean` | server/app/models/user.rb:4-5 | a string with clean ends is its own strip |
| `ServerModels.SympathyIds` | server/app/models/post.rb:5 | exactly the sympathy rows on the post |
| `ServerModels.ReplyIds` | server/app/models/post.rb:4 | exactly the reply rows on the post |
| `ServerModels.BestReplyIds` | server/app/models/reply.rb:10 | exactly the post's replies flagged best |
| `ServerModels.ActivePostIds` | server/app/models/post.rb:17 | exactly the active posts |
| `ServerModels.ResolvedPostIds` | server/app/models/post.rb:18 | exactly the posts that are not active, so the two scopes split the posts |
| `ServerModels.EmptyValid` | server/db/schema.rb:13-68 | the empty database satisfies the invariant |
| `ServerModels.BestReplyCount` | server/app/services/replies/select_best_service.rb:20-32 | in a valid store a resolved post has exactly one best reply and an active post none |
| `ServerModels.SympathyRowUnique` | server/db/schema.rb:45 | the unique index leaves at most one sympathy row per user and post |
| `ServerModels.IdsOfComplete` | server/db/schema.rb:14 | listing a table visits each row exactly once |
| `ServerModels.IdsOfCount` | server/db/schema.rb:14 | a table's listing has as many entries as rows |
| `ServerModels.PostRows` | server/app/controllers/api/v1/posts_controller.rb:8 | the post listing pairs each id with its row, in id order |
| `ServerModels.ReplyRows` | server/app/controllers/api/v1/replies_controller.rb:9 | the reply listing pairs each id with its row, in id order |
| `ServerModels.UserRows` | server/app/controllers/api/v1/users_controller.rb:13 | the user listing pairs each id with its row, in id order |
| `ServerModels.ByCategory` | server/app/models/post.rb:19 | a nil or blank category keeps every row; any other keeps exactly the rows whose category equals it up to ASCII case, in order |
| `ServerModels.ByCategoryIgnoresCase` | server/db/schema.rb:14 | under the case-insensitive collation, asking for "LOVE" lists a post stored under "love" |
| `ServerModels.Popular` | server/app/models/post.rb:20 | the rows reordered by non-increasing sympathy count |
| `ServerModels.RecentPosts` | server/app/models/post.rb:21 | the rows reordered newest first |
| `ServerModels.RecentReplies` | server/app/models/reply.rb:11 | the replies reordered newest first |
| `Serializers.SerializePost` | server/app/serializers/post_serializer.rb:1-22 | the payload copies the post's columns, counts its replies, says resolved iff the status is resolved, and gives nil flags without a viewer, otherwise whether the viewer owns it and has sympathised |
| `Serializers.PostPayloadHidesOwner` | server/app/serializers/post_serializer.rb:4-5 | a viewer who is not the owner sees the same payload whoever owns the post |
| `Serializers.ResolvedPayloadHasReplies` | server/app/serializers/post_serializer.rb:7-13 | in a store where resolved posts have a best reply, a payload that says resolved counts at least one reply |
| `Serializers.ReplyNickname` | server/app/serializers/reply_serializer.rb:6-8 | the pseudonym is the sage prefix followed by a digit string whose value is the author's id |
| `Serializers.ReplyNicknameLength` | server/app/serializers/reply_serializer.rb:7 | ids below 10000 give four digits; longer ids are never cut |
| `Serializers.ReplyNicknameInjective` | server/app/serializers/reply_serializer.rb:7 | two replies share a pseudonym only when they have the same author |
| `Serializers.SerializeReply` | server/app/serializers/reply_serializer.rb:1-13 | the payload copies the reply's columns and pseudonym, with a nil flag without a viewer and otherwise whether the viewer wrote it |
| `ServiceDispatch.StoreAfter` | server/app/services/posts/create_service.rb:14-23 | an entry point that does not return its hash leaves the store as it was (the transaction rolls back); one that returns carries the workflow's store |
| `ServiceDispatch.CreatePostWith` | server/app/services/posts/create_service.rb:13-51 | post creation returns its hash exactly when its own call is public, the filter's call is public, and the ledger's call is public or the workflow failed; a private own call raises |
| `ServiceDispatch.CreateReplyWith` | server/app/services/replies/create_service.rb:13-46 | reply creation returns its hash exactly when its own call is public and, for an active post, the filter's and (on success) the ledger's calls are public; the resolved-post refusal needs neither |
| `ServiceDispatch.GiveSympathyWith` | server/app/services/sympathies/create_service.rb:3-20 | the sympathy entry point raises when its instance call is private, and returns the workflow's result exactly when the ledger's call is public or the workflow failed |
| `ServiceDispatch.SelectBestWith` | server/app/services/replies/select_best_service.rb:3-31 | the best-answer entry point raises when its instance call is private, and otherwise returns the workflow's result exactly when the awards' calls are public or the workflow failed |
| `ServiceDispatch.DeclaredCreatePostAlwaysFails` | server/app/services/posts/create_service.rb:27-30 | with `call` private as declared in the filter service, every post creation fails with a rescued error and keeps the store |
| `ServiceDispatch.DeclaredCreateReplyAlwaysFails` | server/app/services/replies/create_service.rb:14-31 | as declared, a reply to an active post fails the same way, while a reply to a resolved post gets its refusal |
| `ServiceDispatch.DeclaredSympathyAndSelectionRaise` | server/app/services/sympathies/create_service.rb:7-14 | as declared, giving a sympathy and selecting a best reply raise before any guard runs |
| `ServiceDispatch.PublicCallsRunWorkflows` | server/app/services/replies/select_best_service.rb:3-14 | with every instance call public, each entry point returns exactly its workflow's step |
| `ServiceDispatch.FailuresChangeNothing` | server/app/services/posts/create_service.rb:14-23 | for any visibility, an entry point that raises, is rescued, or returns a failure leaves the store unchanged |
| `ServerServices.Message` | server/app/services/replies/create_service.rb:14 | every refusal carries its fixed message; only model-validation failures (which carry the record's errors instead) and the database's ValueTooLong (which is not rendered) have none |
| `ServerModels.Balance` | server/app/services/points/calculate_service.rb:24-35 | the balance the ledger and the points history read is the user's total when the user exists and nil otherwise |
| `ServerServices.Award` | server/app/services/points/calculate_service.rb:24-35 | the store changes only when the ledger awards, and then the user's total becomes the reported total |
| `ServerServices.PointsAdded` | server/app/services/posts/create_service.rb:45-51 | `[:points_added]` is present exactly when the ledger awarded, and is the amount added |
| `ServerServices.CreatePost` | server/app/services/posts/create_service.rb:13-51 | a failure leaves the store as it was; a filtered content fails with the filter's reason; a success names a stored post |
| `ServerServices.SavePost` | server/app/services/posts/create_service.rb:32-39 | the insert fails exactly when the record has errors, and a success stores the post under the next id |
| `ServerServices.GeneratedNicknameValid` | server/app/services/posts/create_service.rb:41-43 | a generated nickname is never blank and fits the 50-character limit |
| `ServerServices.CreatePostSucceedsIff` | server/app/services/posts/create_service.rb:13-23 | post creation succeeds exactly when the content passes the filter, the author exists, the content has at most 1000 characters and the category is one of the six |
| `ServerServices.NewPostAccepted` | server/app/models/post.rb:11-14 | with a valid nickname and non-blank content, the insert succeeds exactly when the owner exists, the content fits and the category is listed |
| `ServerServices.CreatePostEffect` | server/app/services/posts/create_service.rb:13-51 | a successful creation adds one active post with count 0 under the next id, raises the author's points by exactly 10 and changes nothing else |
| `ServerServices.CreateReply` | server/app/services/replies/create_service.rb:13-46 | a failure keeps the store; a resolved post is refused first, then a filtered content; a success names a stored reply of the post |
| `ServerServices.SaveReply` | server/app/services/replies/create_service.rb:34-45 | the insert fails exactly when the record has errors, and a success stores the reply under the next id |
| `ServerServices.CreateReplySucceedsIff` | server/app/services/replies/create_service.rb:13-25 | reply creation succeeds exactly when the post is active, the content passes the filter, the replier exists and the content has at most 500 characters |
| `ServerServices.CreateReplyEffect` | server/app/services/replies/create_service.rb:13-46 | a successful reply adds one non-best reply under the next id, raises the replier's points by exactly 5 and changes nothing else |
| `ServerServices.GiveSympathy` | server/app/services/sympathies/create_service.rb:14-45 | the call is refused exactly when the user already has a sympathy on the post; a failure keeps the store; a success reports one point earned |
| `ServerServices.SaveSympathy` | server/app/services/sympathies/create_service.rb:17-26 | the insert fails exactly when the row has errors, and a success reports the fixed one point |
| `ServerServices.GiveSympathyEffect` | server/app/services/sympathies/create_service.rb:14-45 | a first sympathy adds one row, raises that post's count alone by one, reports the new count, and gives one point to the post's owner, not the giver |
| `ServerServices.FirstSympathy` | server/app/controllers/api/v1/sympathies_controller.rb:23 | the search returns the least id in range holding a row of that user on that post, or reports that none exists |
| `ServerServices.FindSympathy` | server/app/controllers/api/v1/sympathies_controller.rb:23 | a found row belongs to that user on that post; in a store whose ids are below the counters, nothing is found exactly when there is no such row |
| `ServerServices.RemoveSympathy` | server/app/controllers/api/v1/sympathies_controller.rb:22-33 | a missing row gives "not found" and keeps the store; the users' points are never touched |
| `ServerServices.RemoveSympathyEffect` | server/app/controllers/api/v1/sympathies_controller.rb:22-33 | removal succeeds exactly when the user has a sympathy on the post, and then lowers that post's count alone by one and removes one row |
| `ServerServices.GiveThenRemoveRestoresCount` | server/app/models/sympathy.rb:10-21 | giving and then removing a sympathy restores the posts and the rows; the owner keeps the point |
| `ServerServices.RemoveFoundRow` | server/app/controllers/api/v1/sympathies_controller.rb:23-29 | when the search finds a row, removal destroys that row and reports the reloaded count |
| `ServerServices.DestroyInsertedRow` | server/app/models/sympathy.rb:10-21 | destroying the row just inserted undoes the insert and its count increment |
| `ServerServices.FindsOnlyRow` | server/app/controllers/api/v1/sympathies_controller.rb:23 | the search finds a row that is the only one of that user on that post |
| `ServerServices.SelectBest` | server/app/services/replies/select_best_service.rb:14-49 | a failure keeps the store; a resolved post is refused first, then a reply of another post |
| `ServerServices.SaveBest` | server/app/services/replies/select_best_service.rb:18-28 | the transaction fails exactly when the resolution fails, and then keeps the store |
| `ServerServices.SelectBestEffect` | server/app/services/replies/select_best_service.rb:14-49 | in a consistent store, selecting a reply of an active post resolves it, marks the reply best, gives the owner 50 and the author 30 (80 to one user who is both), and reports 50 and 30 |
| `ServerServices.SelectThenRefuse` | server/app/services/replies/select_best_service.rb:15 | once a post is resolved, every later selection and every later reply on it is refused and keeps the store |
| `ServerServices.UpdatePost` | server/app/controllers/api/v1/posts_controller.rb:50-60 | the edited post is saved exactly when it passes the post validations; otherwise the store is kept and the answer carries exactly those validation errors |
| `ServerServices.UpdatePostTouchesContentAndCategoryOnly` | server/app/controllers/api/v1/posts_controller.rb:50-60 | an update changes at most the content and category of that one post, and a success stores the given values |
| `ServerServices.UpdateBypassesContentFilter` | server/app/controllers/api/v1/posts_controller.rb:55 | an update can store an NG word that post creation refuses |
| `ServerServices.DestroyPost` | server/app/controllers/api/v1/posts_controller.rb:62-67 | destroying a post removes it together with all its replies and sympathies |
| `ServerServices.UpdateProfile` | server/app/controllers/api/v1/profiles_controller.rb:13-33 | the edited row (email normalised, nickname as sent) is stored exactly when it passes the validations and fits its columns, and then is the user's new row; a validation failure carries the errors, a row that does not fit raises ValueTooLong, and a failure keeps the store |
| `ServerServices.ProfileChange` | server/app/controllers/api/v1/profiles_controller.rb:31-33 | only email and nickname change: a sent email arrives normalised, a sent nickname (nil included) as it is, and the balance stays |
| `ServerServices.UpdateProfileTouchesOneUser` | server/app/controllers/api/v1/profiles_controller.rb:31-33 | a profile update keeps the points and every other user and changes nothing outside the users |
| `ServerServices.UpdateProfileRefusesMalformedEmail` | server/app/models/user.rb:5 | a non-blank new email that does not match Devise's pattern, such as "foo", is refused as invalid and nothing changes |
| `ServerServices.UpdateProfileRefusesEmailInOtherCase` | server/app/models/user.rb:14 | an email another user holds with letters in another case, such as "B@X.com" against "b@x.com", is refused as taken and nothing changes |
| `ServerServices.UpdateProfileNicknameTooLong` | server/db/schema.rb:57 | in a consistent store, a nickname of more than 30 characters passes the validations and raises ValueTooLong, and the store is kept |
| `ServerServices.UpdateProfileStoresNormalEmail` | server/app/models/user.rb:4-14 | a stored new email is in normal form, matches the pattern unless it is the old one, and differs up to case from every other user's |
| `ServerServices.DestroyUser` | server/app/models/user.rb:9-11 | destroying a user removes them and leaves no post, reply or sympathy of theirs |
| `ServerQueries.ActiveRows` | server/app/models/post.rb:17 | every row of `active_posts` is an active post |
| `ServerQueries.Sorted` | server/app/controllers/api/v1/posts_controller.rb:12-17 | the rows are reordered, not changed: by sympathy count, highest first, for `popular`, and by creation date, newest first, for any other sort |
| `ServerQueries.Listing` | server/app/controllers/api/v1/posts_controller.rb:8-17 | the listing holds exactly the active posts that pass the category filter, each as often as stored |
| `ServerQueries.ListingRows` | server/app/controllers/api/v1/posts_controller.rb:8-10 | each listed row is a stored active post under its own id, in the requested category up to ASCII case when one is given |
| `ServerQueries.ListingComplete` | server/app/models/post.rb:17-19 | every active post whose category equals the requested one up to ASCII case (or every active post when none or a blank one is given) is listed |
| `ServerQueries.Offset` | server/app/controllers/api/v1/posts_controller.rb:19 | a page number of 1 or less starts at row 0; page n starts at (n - 1) times the page size |
| `ServerQueries.PageOf` | server/app/controllers/api/v1/posts_controller.rb:19 | a page holds at most the page size of rows, is empty past the end, and is the consecutive run of rows from its offset |
| `ServerQueries.PageIsSlice` | server/app/controllers/api/v1/posts_controller.rb:19 | page n is exactly the rows between the ends of pages n - 1 and n, cut down to the listing's length |
| `ServerQueries.PagesTile` | server/app/controllers/api/v1/posts_controller.rb:19 | pages 1 to n read in turn give the first n times the page size rows, in order, with no row skipped or repeated |
| `ServerQueries.Index` | server/app/controllers/api/v1/posts_controller.rb:7-25 | at most `per_page` (10 by default) payloads, each the serialized stored post under its id, active, not resolved, and in the requested category |
| `ServerQueries.PageRows` | server/app/controllers/api/v1/posts_controller.rb:19 | each row of a page is a stored active post under its own id |
| `ServerQueries.IndexHidesResolved` | server/app/controllers/api/v1/posts_controller.rb:8 | a resolved post never appears in the index |
| `ServerQueries.PostReplies` | server/app/models/reply.rb:11 | the post's replies are newest first and exactly the stored replies of the post |
| `ServerQueries.RepliesIndex` | server/app/controllers/api/v1/replies_controller.rb:8-14 | one payload per reply of the post, each the serialized stored reply of that post |
| `ServerQueries.RepliesIndexNewestFirst` | server/app/controllers/api/v1/replies_controller.rb:9 | the payloads' creation dates never increase along the list |
| `ServerQueries.PostRepliesRows` | server/app/controllers/api/v1/replies_controller.rb:9 | each listed row is a stored reply of the post under its own id |
| `ServerQueries.RepliesIndexComplete` | server/app/controllers/api/v1/replies_controller.rb:8-14 | every stored reply of the post appears in the index |
| `ServerQueries.FindReply` | server/app/controllers/api/v1/replies_controller.rb:58-60 | a reply id is found exactly when it names a reply of that post |
| `ServerQueries.UserStats` | server/app/controllers/api/v1/profiles_controller.rb:35-45 | the total posts split into active and resolved, best replies never exceed replies, and the counts are the sizes of the user's posts, replies and sympathies |
| `ServerQueries.CountSumNonNegative` | server/app/controllers/api/v1/profiles_controller.rb:43 | with no negative count stored, the sympathies received are never negative |
| `ServerQueries.CountSumBump` | server/app/controllers/api/v1/profiles_controller.rb:43 | raising one listed post's count by one raises its owner's sum by one and leaves every other user's sum |
| `ServerQueries.CountSumFrame` | server/app/controllers/api/v1/profiles_controller.rb:43 | a change to a post that is not listed leaves the sum as it was |
| `ServerQueries.ReceivedNonNegative` | server/app/controllers/api/v1/profiles_controller.rb:43 | in a store whose posts are valid, the sympathies received are never negative |
| `ServerQueries.Split` | server/app/controllers/api/v1/users_controller.rb:42 | splitting gives at least one field, one empty field for an empty string, and no field contains the separator |
| `ServerQueries.SplitJoin` | server/app/controllers/api/v1/users_controller.rb:42 | the fields joined back with the separator give the string again |
| `ServerQueries.DropTrailingEmpty` | server/app/controllers/api/v1/users_controller.rb:42 | the result is a prefix of the fields, ends with a non-empty field unless empty, and only empty fields were dropped |
| `ServerQueries.RubySplit` | server/app/controllers/api/v1/users_controller.rb:42 | no field of `split('@')` contains the separator |
| `ServerQueries.SplitAround` | server/app/controllers/api/v1/users_controller.rb:42-44 | an address with one separator splits into its local part and its domain |
| `ServerQueries.SplitNoSep` | server/app/controllers/api/v1/users_controller.rb:42 | a string without the separator is one field |
| `ServerQueries.SplitPrefix` | server/app/controllers/api/v1/users_controller.rb:42 | a separator-free prefix before a separator becomes the first field, and the rest splits on its own |
| `ServerQueries.MaskEmailAsWritten` | server/app/controllers/api/v1/users_controller.rb:41-48 | an address that splits into no fields (empty, or at signs only) fails on nil; one whose local part has fewer than two characters, an empty one as in "@x.com" included, fails on the negative repeat count |
| `ServerQueries.OneLetterLocalPartRaises` | server/app/controllers/api/v1/users_controller.rb:46 | every address with a one-letter local part makes the mask raise |
| `ServerQueries.OneLetterExample` | server/app/controllers/api/v1/users_controller.rb:46 | "a@example.com" makes the mask raise |
| `ServerQueries.MaskEmail` | server/app/controllers/api/v1/users_controller.rb:41-48 | with the repeat count clamped, the mask fails only for an address that splits into no fields (empty, or at signs only) and agrees with the code as written on local parts of two or more characters |
| `ServerQueries.MaskEmailShape` | server/app/controllers/api/v1/users_controller.rb:41-48 | on local@domain the mask keeps the first two characters and the domain, stars the rest and keeps the length |
| `ServerQueries.DisplayNickname` | server/app/controllers/api/v1/users_controller.rb:21 | the ranking's name is the nickname when set and not empty, otherwise the reply pseudonym of the id |
| `ServerQueries.ByPoints` | server/app/controllers/api/v1/users_controller.rb:13 | every user row, reordered by points, highest first |
| `ServerQueries.Top` | server/app/controllers/api/v1/users_controller.rb:13-14 | the first `limit` (100 by default) rows of the points ordering, or all when there are fewer |
| `ServerQueries.RankingAsWritten` | server/app/controllers/api/v1/users_controller.rb:12-27 | as written the ranking succeeds exactly when there is no user to list, since the first entry calls the undefined `display_nickname` |
| `ServerQueries.Entry` | server/app/controllers/api/v1/users_controller.rb:18-24 | an entry has rank position plus one, and the user's id, display name, masked email and points |
| `ServerQueries.Ranking` | server/app/controllers/api/v1/users_controller.rb:12-27 | the ranking fails only when a listed user's email splits into no fields (empty, or at signs only), and otherwise is one entry per listed user, in order |
| `ServerQueries.TopRows` | server/app/controllers/api/v1/users_controller.rb:13-14 | the listed rows are rows of the users table under their own ids, no user listed twice |
| `ServerQueries.LeftOutRankLower` | server/app/controllers/api/v1/users_controller.rb:13-14 | a user left out of the ranking has no more points than anyone listed |
| `ServerQueries.PositionOf` | server/app/controllers/api/v1/users_controller.rb:13 | every user stands somewhere in the full points ordering |
| `ServerQueries.RankingIsTop` | server/app/controllers/api/v1/users_controller.rb:12-27 | ranks run 1, 2, 3 with no gap, points never increase down the list, no user is listed twice, and a user left out has no more points than anyone listed |
| `ServerQueries.RowsDistinct` | server/db/schema.rb:49-61 | the users table lists each user once |
| `ServerQueries.RowInTable` | server/db/schema.rb:49-61 | every listed user row is the stored user under its id |
| `ServerStore.Store.constructor` | server/db/schema.rb:13-68 | a freshly migrated database has every table empty and satisfies the store invariant |
| `ServerStore.Store.AddPoints` | server/app/models/user.rb:18-20 | `add_points` raises that user's total by the amount and writes nothing else |
| `ServerStore.Store.BumpSympathyCount` | server/app/models/sympathy.rb:15-21 | the callback moves that post's sympathy count by the delta and writes nothing else |
| `ServerStore.Store.Calculate` | server/app/services/points/calculate_service.rb:24-35 | the ledger leaves the tables and answers exactly as the ledger function says, and never lowers anyone's points |
| `ServerStore.Store.ResolveWithBestReply` | server/app/models/post.rb:24-31 | the resolution succeeds or fails as the record function says, writes both rows on success and nothing on failure |
| `ServerStore.Store.FindSympathy` | server/app/controllers/api/v1/sympathies_controller.rb:23 | the loop over the ids finds the same row as the search function |
| `ServerStore.Store.DestroySympathy` | server/app/models/sympathy.rb:11 | destroying a row removes it and lowers its post's count by one, as the record function says |
| `ServerStore.Store.CreatePost` | server/app/services/posts/create_service.rb:13-51 | the tables and the result are those of the post-creation workflow, and a valid store stays valid and only evolves |
| `ServerStore.Store.SavePost` | server/app/services/posts/create_service.rb:32-39 | the insert and the award leave the tables and the result as the transaction function says |
| `ServerStore.Store.CreateReply` | server/app/services/replies/create_service.rb:13-46 | the tables and the result are those of the reply-creation workflow, and a valid store stays valid and only evolves |
| `ServerStore.Store.SaveReply` | server/app/services/replies/create_service.rb:34-45 | the insert and the award leave the tables and the result as the transaction function says |
| `ServerStore.Store.GiveSympathy` | server/app/services/sympathies/create_service.rb:14-45 | the tables and the result are those of the sympathy workflow, and a valid store stays valid and only evolves |
| `ServerStore.Store.SaveSympathy` | server/app/services/sympathies/create_service.rb:17-26 | the insert, its callback and the award leave the tables and the result as the transaction function says |
| `ServerStore.Store.RemoveSympathy` | server/app/controllers/api/v1/sympathies_controller.rb:22-33 | the tables and the result are those of the removal function, and a valid store stays valid and only evolves |
| `ServerStore.Store.SelectBest` | server/app/services/replies/select_best_service.rb:14-49 | the tables and the result are those of the selection workflow, and a valid store stays valid and only evolves |
| `ServerStore.Store.SaveBest` | server/app/services/replies/select_best_service.rb:18-28 | the resolution and the two awards leave the tables and the result as the transaction function says |
| `ServerStore.Store.UpdatePost` | server/app/controllers/api/v1/posts_controller.rb:50-60 | the tables and the result are those of the update function, and a valid store stays valid and only evolves |
| `ServerStore.Store.DestroyPost` | server/app/controllers/api/v1/posts_controller.rb:62-67 | the tables are those of the destroy function, and a valid store stays valid and only evolves |
| `ServerStore.Store.UpdateProfile` | server/app/controllers/api/v1/profiles_controller.rb:13-27 | the tables and the result are those of the profile-update function, email normalisation and column limits included, and a valid store stays valid and only evolves |
| `ServerStore.Store.DestroyUser` | server/app/models/user.rb:9-11 | the tables are those of the user-destroy function, and a consistent store stays consistent |
| `ServerControllers.StatusOf` | server/app/controllers/api/base_controller.rb:5-6 | an unrescued exception answers 500; a rendered answer has its own status |
| `ServerControllers.NotFound` | server/app/controllers/api/base_controller.rb:10-12 | a missing record answers 404 |
| `ServerControllers.PostsIndex` | server/app/controllers/api/v1/posts_controller.rb:7-25 | the index answers 200 with at most `per_page` posts, each a stored active post |
| `ServerControllers.PostsShow` | server/app/controllers/api/v1/posts_controller.rb:27-31 | any stored post, active or resolved, is shown with 200; a missing one is 404 |
| `ServerControllers.PostsCreate` | server/app/controllers/api/v1/posts_controller.rb:33-48 | the answer is 201 exactly when the service returned a success; any other answer leaves the store as it was |
| `ServerControllers.PostsCreateAsWritten` | server/app/controllers/api/v1/posts_controller.rb:33-48 | as written, posting always answers 422 with the rescued error and keeps the store |
| `ServerControllers.PostsCreateIntended` | server/app/controllers/api/v1/posts_controller.rb:33-48 | with every call public, posting answers 201 exactly when the content passes, the author exists, the content fits and the category is listed; the new post is the author's own, unresolved, with no replies or sympathies and 10 points; otherwise 422 with the store kept |
| `ServerControllers.NewPostIsBare` | server/db/schema.rb:27-47 | a post under a fresh id has no replies and no sympathies |
| `ServerControllers.PostsUpdate` | server/app/controllers/api/v1/posts_controller.rb:50-60 | a missing post is 404; the owner's update is answered 200 exactly when it succeeds; a non-owner gets 403 with the store kept when the check halts, and as written the edit is stored and the second render fails |
| `ServerControllers.PostsDestroy` | server/app/controllers/api/v1/posts_controller.rb:62-67 | a missing post is 404; the owner's delete is answered 200; a non-owner gets 403 with the store kept when the check halts, and as written the post is deleted and the second render fails |
| `ServerControllers.NonOwnerEditsPost` | server/app/controllers/api/v1/posts_controller.rb:79-83 | as written, a non-owner's valid edit of someone else's post is stored and answered 500 |
| `ServerControllers.NonOwnerDeletesPost` | server/app/controllers/api/v1/posts_controller.rb:79-83 | as written, a non-owner's delete removes the post and is answered 500 |
| `ServerControllers.OwnerCheckIntended` | server/app/controllers/api/v1/posts_controller.rb:79-83 | with the check halting, a non-owner is refused with 403 and the store is untouched, while the owner is served as before |
| `ServerControllers.RepliesIndex` | server/app/controllers/api/v1/replies_controller.rb:8-14 | a stored post's replies are answered with 200; a missing post is 404 |
| `ServerControllers.RepliesCreate` | server/app/controllers/api/v1/replies_controller.rb:16-31 | a missing post is 404; the answer is 201 exactly when the service returned a success; any other answer keeps the store |
| `ServerControllers.RepliesCreateIntended` | server/app/controllers/api/v1/replies_controller.rb:16-31 | with every call public, a reply answers 201 exactly when the post is active, the content passes, the replier exists and the content fits; the reply is the replier's own, not best, under their pseudonym, with 5 points; a resolved post answers 422 with its error |
| `ServerControllers.RepliesSelectBest` | server/app/controllers/api/v1/replies_controller.rb:33-50 | a missing post or a reply of another post is 404; a non-owner is refused with 403 and the store kept when the check halts, and as written reaches a 500; any non-200 answer keeps the store |
| `ServerControllers.SelectBestNeverCrossPost` | server/app/controllers/api/v1/replies_controller.rb:58-60 | the service's "reply of another post" refusal is never answered: the lookup has answered 404 first |
| `ServerControllers.NonOwnerSelectsBest` | server/app/controllers/api/v1/replies_controller.rb:66-70 | as written, a non-owner settles someone else's active post: it is resolved, the points are paid, and the answer is 500 |
| `ServerControllers.OwnerSelectsBest` | server/app/controllers/api/v1/replies_controller.rb:33-50 | with the check halting and every call public, the owner's selection on an active post answers 200 with 50 and 30 points |
| `ServerControllers.SelectBestRoute` | server/app/controllers/api/v1/replies_controller.rb:33-50 | past the owner check, the service's outcome is answered, or the second render fails for a non-owner |
| `ServerControllers.SelectBestResolves` | server/app/controllers/api/v1/replies_controller.rb:33-44 | in a consistent store, the selection on an active post succeeds with 50 and 30 and resolves the post |
| `ServerControllers.SympathiesCreate` | server/app/controllers/api/v1/sympathies_controller.rb:6-20 | a missing post is 404; the answer is 201 exactly when the service returned a success, with the stored count and one point; any other answer keeps the store |
| `ServerControllers.GivenCountIsStored` | server/app/services/sympathies/create_service.rb:23 | the count a successful sympathy reports is the stored count |
| `ServerControllers.SympathiesDestroy` | server/app/controllers/api/v1/sympathies_controller.rb:22-33 | removal answers 200 exactly when the user had a sympathy on the post, and otherwise 404 with the store kept; the points never change |
| `ServerControllers.GiveThenTakeBack` | server/app/controllers/api/v1/sympathies_controller.rb:6-33 | giving then removing a sympathy answers 201 then 200 with the original count, restores the posts and the rows, and the owner keeps the point |
| `ServerControllers.SympathyUpdatesStats` | server/app/controllers/api/v1/profiles_controller.rb:42-43 | after a sympathy the giver has given one more and the owner received one more, and everyone else's figures stay |
| `ServerControllers.GivenAfterInsert` | server/app/controllers/api/v1/profiles_controller.rb:42 | one more row by a user counts once for that user and for nobody else |
| `ServerControllers.ReceivedAfterBump` | server/app/controllers/api/v1/profiles_controller.rb:43 | one more on a post's count is one more received for its owner and for nobody else |
| `ServerControllers.SympathyShowsOnPost` | server/app/serializers/post_serializer.rb:19-21 | after a sympathy the post shows the giver the flag set and a count one higher |
| `ServerControllers.ReplyShowsOnPost` | server/app/serializers/post_serializer.rb:7-9 | after a new reply the post's payload counts one more reply |
| `ServerControllers.ReplyCountAfterInsert` | server/app/serializers/post_serializer.rb:7-9 | a reply on the post under a fresh id adds one to the post's replies |
| `ServerControllers.ProfilesShow` | server/app/controllers/api/v1/profiles_controller.rb:4-11 | the profile answers 200 with the current user's serialized row and exactly their statistics, whose total posts split into active and resolved and whose sympathies received are never negative in a valid store |
| `ServerControllers.ProfileAfterUpdate` | server/app/controllers/api/v1/profiles_controller.rb:4-27 | after a successful profile update the profile shows the row the update answered, with the statistics unchanged |
| `ServerQueries.StatsIgnoreUsers` | server/app/controllers/api/v1/profiles_controller.rb:35-45 | the statistics do not depend on the users table |
| `ServerControllers.ProfilesUpdate` | server/app/controllers/api/v1/profiles_controller.rb:13-27 | 200 with the serialized new row exactly when the update succeeds, 422 exactly on a validation failure, 500 exactly when the database refuses a too-long value; the store is kept on every failure and the points never change |
| `ServerControllers.ProfilesUpdateLongNickname` | server/db/schema.rb:57 | in a consistent store, a 31-character nickname is answered 500 and changes nothing |
| `ServerControllers.UsersShow` | server/app/controllers/api/v1/users_controller.rb:4-10 | any user is shown with 200 and their serialized row; a missing one is 404 |
| `ServerControllers.ShowAfterProfileUpdate` | server/app/controllers/api/v1/users_controller.rb:4-10 | after a successful profile update, showing the user answers exactly what the update answered |
| `Serializers.SerializeUser` | server/app/serializers/user_serializer.rb:1-4 | the payload is the stored row under its id: email, nickname and points |
| `ServerControllers.UsersRanking` | server/app/controllers/api/v1/users_controller.rb:12-27 | as written the ranking renders only when there is nobody to list; corrected, it answers 200 with the ranking whenever that succeeds, and otherwise 500 on the nil local part |
| `ServerControllers.RankingCrashesWithUsers` | server/app/controllers/api/v1/users_controller.rb:21 | as written, with one user and a positive limit the ranking answers 500 |
| `ServerControllers.UsersPointsHistory` | server/app/controllers/api/v1/users_controller.rb:29-37 | an unknown user is 404; a known one is answered with their current points |
| `ServerInvariants.AddPointsPreservesValid` | server/app/models/user.rb:18-20 | adding a non-negative amount keeps a valid store valid and lowers no balance |
| `ServerInvariants.AwardPreservesValid` | server/app/services/points/calculate_service.rb:24-35 | the ledger keeps a valid store valid, lowers no balance, and leaves the users' ids and the posts as they were |
| `ServerInvariants.CreatePostRecordPreservesValid` | server/app/models/post.rb:11-14 | inserting an active post with count 0 that passes its validations keeps a valid store valid |
| `ServerInvariants.CreateReplyRecordPreservesValid` | server/app/models/reply.rb:7 | inserting a non-best reply that passes its validations keeps a valid store valid |
| `ServerInvariants.CreateSympathyRecordPreservesValid` | server/app/models/sympathy.rb:7-17 | inserting a sympathy that passes the uniqueness check, with its count callback, keeps a valid store valid |
| `ServerInvariants.DestroySympathyRecordPreservesValid` | server/app/models/sympathy.rb:11-21 | destroying a sympathy row, with its count callback, keeps a valid store valid |
| `ServerInvariants.MarkResolvedEvolves` | server/app/models/post.rb:24-31 | marking a post resolved lowers no balance and reopens no resolved post |
| `ServerInvariants.ResolvePreservesValid` | server/app/models/post.rb:24-31 | resolving an active post with one of its replies succeeds in a valid store, keeps it valid, and leaves that reply as the post's only best reply |
| `ServerInvariants.DestroyPostRecordPreservesValid` | server/app/models/post.rb:3-5 | destroying a post with its replies and sympathies keeps a valid store valid |
| `ServerInvariants.UpdatePostPreservesValid` | server/app/controllers/api/v1/posts_controller.rb:50-60 | a post update keeps a valid store valid and lowers no balance |
| `ServerInvariants.UpdateProfilePreservesValid` | server/app/controllers/api/v1/profiles_controller.rb:13-27 | a profile update keeps a valid store valid and lowers no balance |
| `ServerInvariants.EvolvesTrans` | server/app/services/replies/select_best_service.rb:18-28 | two steps that each lower no balance and reopen no post, with no row lost, do neither when composed |
| `ServerInvariants.SavePostPreservesValid` | server/app/services/posts/create_service.rb:14-20 | the post-creation transaction keeps a valid store valid and lowers no balance |
| `ServerInvariants.CreatePostPreservesValid` | server/app/services/posts/create_service.rb:13-23 | post creation, success or failure, keeps a valid store valid and lowers no balance |
| `ServerInvariants.SaveReplyPreservesValid` | server/app/services/replies/create_service.rb:16-22 | the reply-creation transaction keeps a valid store valid and lowers no balance |
| `ServerInvariants.CreateReplyPreservesValid` | server/app/services/replies/create_service.rb:13-25 | reply creation, success or failure, keeps a valid store valid and lowers no balance |
| `ServerInvariants.SaveSympathyPreservesValid` | server/app/services/sympathies/create_service.rb:17-26 | the sympathy transaction keeps a valid store valid and lowers no balance |
| `ServerInvariants.GiveSympathyPreservesValid` | server/app/services/sympathies/create_service.rb:14-29 | giving a sympathy, success or failure, keeps a valid store valid and lowers no balance |
| `ServerInvariants.RemoveSympathyPreservesValid` | server/app/controllers/api/v1/sympathies_controller.rb:22-33 | removing a sympathy keeps a valid store valid and lowers no balance |
| `ServerInvariants.AwardBothPreservesValid` | server/app/services/replies/select_best_service.rb:20-21 | the two awards of a selection keep a valid store valid and lower no balance |
| `ServerInvariants.SelectBestPreservesValid` | server/app/services/replies/select_best_service.rb:14-31 | selecting a best reply, success or failure, keeps a valid store valid, lowers no balance and reopens no resolved post |
| `ServerInvariants.DestroyPostPreservesValid` | server/app/controllers/api/v1/posts_controller.rb:62-67 | the destroy action keeps a valid store valid |
| `ServerInvariants.DestroyUserPreservesConsistent` | server/app/models/user.rb:9-11 | destroying a user with everything that depends on them keeps the references, the counts and the uniqueness of sympathies intact |
| `ServerInvariants.OrphanExampleValid` | server/db/schema.rb:13-68 | the two-user example store, a resolved post of one user with the other's best reply, is valid |
| `ServerInvariants.DestroyUserCanOrphanResolvedPost` | server/app/models/user.rb:10 | destroying the author of a best reply can leave a valid store's resolved post without a best reply |
| `ServerInvariants.OrphanAfterDestroy` | server/app/models/user.rb:10 | in the example, after destroying the replier the post is still resolved and has no best reply |
| `KuyouContentFilter.ErrorDescription` | KUYOU/Services/ContentFilter.swift:9-20 | each content error shows a non-empty Japanese message, the length errors with their limit |
| `KuyouContentFilter.ContainsBannedWords` | KUYOU/Services/ContentFilter.swift:67-72 | a text is flagged exactly when it contains a banned word, ignoring case; with the empty list it never is |
| `KuyouContentFilter.SpamHits` | KUYOU/Services/ContentFilter.swift:77-79 | every hit is one of the spam patterns and occurs in the text, ignoring case |
| `KuyouContentFilter.SpamPatternsDistinct` | KUYOU/Services/ContentFilter.swift:32-41 | the eight spam patterns are all different |
| `KuyouContentFilter.SpamCountsPatterns` | KUYOU/Services/ContentFilter.swift:74-82 | the spam score is the number of different patterns present, never more than eight |
| `KuyouContentFilter.SpamThreshold` | KUYOU/Services/ContentFilter.swift:81 | three different patterns present make spam, and a text with at most two patterns present is never spam |
| `KuyouContentFilter.CountBounds` | KUYOU/Services/ContentFilter.swift:77-81 | over distinct patterns, three hits count at least three and hits at two positions count at most two |
| `KuyouContentFilter.Validate` | KUYOU/Services/ContentFilter.swift:45-65 | on the trimmed text, too short exactly below 10 characters, too long exactly above 500, spam exactly for an in-range spam text, and success exactly for an in-range text that is not spam; the banned-word error never occurs |
| `KuyouContentFilter.Sanitize` | KUYOU/Services/ContentFilter.swift:84-90 | the result has no white space at either end and is never longer than the trimmed text |
| `KuyouContentFilter.ReplaceKeepsEnds` | KUYOU/Services/ContentFilter.swift:87 | the replacement never lengthens the text and keeps a first or last character that is not a newline |
| `KuyouContentFilter.TrimClean` | KUYOU/Services/ContentFilter.swift:46 | a text with no white space at either end trims to itself |
| `KuyouContentFilter.SanitizedIsTrimmed` | KUYOU/Services/ContentFilter.swift:84-90 | sanitised text trims to itself, so its check sees exactly the saved text |
| `KuyouContentFilter.SanitizeNotIdempotent` | KUYOU/Services/ContentFilter.swift:87 | four newlines become three and three become two, so sanitising twice changes the text again |
| `KuyouContentFilter.SanitizeClean` | KUYOU/Services/ContentFilter.swift:84-90 | on text with no white space at either end, sanitising only shortens the newline runs |
| `KuyouContentFilter.ReplaceRuns` | KUYOU/Services/ContentFilter.swift:87 | the single pass turns four newlines between two characters into three, and three into two |
| `KuyouContentFilter.ReplaceKeeps` | KUYOU/Services/ContentFilter.swift:87 | a text not starting with three newlines keeps its first character |
| `KuyouContentFilter.ReplaceRun` | KUYOU/Services/ContentFilter.swift:87 | a text starting with three newlines has that run shortened to two |
| `KuyouModels.AllEmotionTagsComplete` | KUYOU/Models/BlackHistoryModel.swift:23-28 | every emotion tag is listed among all cases, each once |
| `KuyouModels.NewBlackHistory` | KUYOU/Models/BlackHistoryModel.swift:49-67 | a new history keeps its id, text, category, tags and date, with no salvations, unresolved and without a best answer |
| `KuyouModels.NewRewrite` | KUYOU/Models/RewriteModel.swift:26-50 | a new rewrite keeps its id, history, text, route and date, with no likes and not best |
| `KuyouModels.AllAchievementsComplete` | KUYOU/Models/UserModel.swift:3-13 | every achievement is listed among all cases, each once |
| `KuyouModels.RequiredPoints` | KUYOU/Models/UserModel.swift:25-37 | the three master achievements require 500 points |
| `KuyouModels.DefaultUser` | KUYOU/Models/UserModel.swift:49-65 | a new user has no points, posts, achievements, salvations or best answers |
| `KuyouModels.Earned` | KUYOU/Models/UserModel.swift:72-93 | an achievement is earned exactly when the user's record meets its rule |
| `KuyouModels.CheckAchievements` | KUYOU/Models/UserModel.swift:72-93 | the check adds exactly the earned achievements to those held, removes none, and changes no other field |
| `KuyouModels.AddPoints` | KUYOU/Models/UserModel.swift:67-70 | the points rise by exactly the amount, the earned achievements are added, and nothing else changes; the result is the awarded record `Awarded` |
| `KuyouModels.EarnedIgnoresPoints` | KUYOU/Models/UserModel.swift:72-93 | the rules never look at the points: records that differ only in points and achievements earn the same |
| `KuyouModels.MastersNeverEarned` | KUYOU/Models/UserModel.swift:72-93 | the three master achievements are never granted by the check |
| `KuyouModels.EarnedMonotone` | KUYOU/Models/UserModel.swift:72-93 | a record with at least as many posts, salvations and best answers earns every achievement the other does |
| `KuyouModels.CheckIdempotent` | KUYOU/Models/UserModel.swift:72-93 | checking a second time grants nothing more |
| `KuyouStorage.IndexOf` | KUYOU/Services/StorageService.swift:37 | the index found holds the id and no earlier entry does; nothing is found exactly when no entry holds the id |
| `KuyouStorage.UpsertReplacesInPlace` | KUYOU/Services/StorageService.swift:37-38 | saving an entry whose id is stored overwrites the first entry with that id and keeps the length and every other position |
| `KuyouStorage.UpsertAddsNew` | KUYOU/Services/StorageService.swift:39-41 | saving an entry with a new id puts it at the front (histories) or at the end (rewrites) and keeps the rest |
| `KuyouStorage.UpsertKeepsIdsUnique` | KUYOU/Services/StorageService.swift:34-45 | a save keeps the ids unique, and the saved entry is then the only one with its id |
| `KuyouStorage.IndexOfFirst` | KUYOU/Services/StorageService.swift:37 | the first position holding an id is the one the lookup finds |
| `KuyouStorage.FindAfterUpsert` | KUYOU/Services/StorageService.swift:55-57 | after a save, looking the id up finds the saved entry |
| `KuyouStorage.UpsertIdempotent` | KUYOU/Services/StorageService.swift:34-45 | saving the same entry twice stores the same list as saving it once |
| `KuyouStorage.Storage.constructor` | KUYOU/Services/StorageService.swift:29-32 | a new store holds no histories, no rewrites and no user |
| `KuyouStorage.Storage.SaveBlackHistory` | KUYOU/Services/StorageService.swift:34-45 | the history list becomes the upsert of the history at the front, nothing else changes, and the history is then found by its id |
| `KuyouStorage.Storage.UpdateBlackHistory` | KUYOU/Services/StorageService.swift:59-61 | an update is a save |
| `KuyouStorage.Storage.LoadBlackHistory` | KUYOU/Services/StorageService.swift:55-57 | nothing is found exactly when no history has the id; otherwise the first history with that id |
| `KuyouStorage.Storage.SaveRewrite` | KUYOU/Services/StorageService.swift:63-74 | the rewrite list becomes the upsert of the rewrite at the end, and nothing else changes |
| `KuyouStorage.Storage.UpdateRewrite` | KUYOU/Services/StorageService.swift:82-84 | an update is a save |
| `KuyouStorage.Storage.LoadRewrites` | KUYOU/Services/StorageService.swift:76-80 | exactly the rewrites of the history, each as often as stored, newest first |
| `KuyouStorage.Storage.LoadUser` | KUYOU/Services/StorageService.swift:86-92 | the stored user, or a new user with no points, posts, achievements, salvations or best answers |
| `KuyouStorage.Storage.SaveUser` | KUYOU/Services/StorageService.swift:94-97 | the user becomes the stored one and the lists stay |
| `KuyouStorage.Storage.ClearAllData` | KUYOU/Services/StorageService.swift:107-111 | every list is empty and no user is stored, so the next load starts with no points |
| `KuyouStorage.RecordSalvation` | KUYOU/ViewModels/TimelineViewModel.swift:86-95 | the history with its new count is saved, the rewrites stay, and the stored user is exactly the loaded one after a salvation (`Salvaged`) |
| `KuyouStorage.Salvaged` | KUYOU/ViewModels/TimelineViewModel.swift:92-94 | after a salvation the user has one more salvation given and two more points, keeps id, date, posts and best answers, and holds every achievement the new counters qualify for (ten, hundred and thousand salvations) |
| `KuyouTimeline.Visible` | KUYOU/ViewModels/TimelineViewModel.swift:60-80 | a history is shown exactly when it is loaded, in the chosen category, mentions the search text and, for the resolved option, is resolved; each shown history as often as loaded |
| `KuyouTimeline.Arranged` | KUYOU/ViewModels/TimelineViewModel.swift:59-83 | the filter chain yields exactly the visible histories, ordered by salvations for popular and by date, newest first, otherwise |
| `KuyouTimeline.TimelineViewModel.constructor` | KUYOU/ViewModels/TimelineViewModel.swift:29-32 | the screen starts with the stored histories, no category, no search, the newest option, and presents them |
| `KuyouTimeline.TimelineViewModel.LoadBlackHistories` | KUYOU/ViewModels/TimelineViewModel.swift:43-53 | the stored histories are loaded and presented, and the choices stay |
| `KuyouTimeline.TimelineViewModel.Refresh` | KUYOU/ViewModels/TimelineViewModel.swift:55-57 | a refresh reloads and presents the stored histories |
| `KuyouTimeline.TimelineViewModel.ApplyFiltersAndSort` | KUYOU/ViewModels/TimelineViewModel.swift:59-83 | the screen shows exactly the visible histories in the option's order, and nothing else changes |
| `KuyouTimeline.TimelineViewModel.GiveSalvation` | KUYOU/ViewModels/TimelineViewModel.swift:85-107 | the history is saved with one more salvation and the stored user is exactly the salvaged one; a loaded history is replaced and the screen presented again, otherwise the screen stays; the filters and the loading flag stay |
| `KuyouTimeline.TimelineViewModel.ToggleCategory` | KUYOU/ViewModels/TimelineViewModel.swift:109-115 | choosing the selected category clears it, any other category becomes the choice, and the lists, order, search and loading flag stay |
| `KuyouTimeline.UnfilteredShowsAll` | KUYOU/ViewModels/TimelineViewModel.swift:59-83 | with no category, no search and the newest option, every loaded history is on screen as often as loaded |
| `KuyouTimeline.NarrowingRemoves` | KUYOU/ViewModels/TimelineViewModel.swift:62-79 | choosing a category or the resolved option only removes histories from the screen |
| `KuyouProfile.LevelTitle` | KUYOU/ViewModels/ProfileViewModel.swift:35-50 | the title is one of the six, and the top title is given exactly for points of 10000 or more and, through the default, for negative points |
| `KuyouProfile.NextLevelPoints` | KUYOU/ViewModels/ProfileViewModel.swift:52-67 | the next level lies above the points; below 10000 it is the least threshold above them; from 10000, and for negative points, it is 5000 more |
| `KuyouProfile.LevelStart` | KUYOU/ViewModels/ProfileViewModel.swift:69-88 | the start of the level is zero or a threshold, and below 10000 the points lie between it and the next level |
| `KuyouProfile.LevelProgress` | KUYOU/ViewModels/ProfileViewModel.swift:69-88 | the progress lies between 0 and 1, and below 10000 it is the share of the current level already covered |
| `KuyouProfile.Band` | KUYOU/ViewModels/ProfileViewModel.swift:35-67 | the band of a point total is at most 5 |
| `KuyouProfile.BandBounds` | KUYOU/ViewModels/ProfileViewModel.swift:35-50 | a non-negative total lies between its band's threshold and the next one |
| `KuyouProfile.BandIsCount` | KUYOU/ViewModels/ProfileViewModel.swift:35-50 | the band counts the thresholds reached, in order |
| `KuyouProfile.LevelsMatchTable` | KUYOU/ViewModels/ProfileViewModel.swift:35-67 | the two switches agree with the threshold table: the title is the band's title, and the next level is the band's upper threshold or 5000 more from the top band |
| `KuyouProfile.BandMonotone` | KUYOU/ViewModels/ProfileViewModel.swift:35-50 | more points never give a lower level |
| `KuyouProfile.Unlocked` | KUYOU/ViewModels/ProfileViewModel.swift:96-98 | exactly the achievements the user holds, each once |
| `KuyouProfile.Locked` | KUYOU/ViewModels/ProfileViewModel.swift:100-102 | exactly the achievements the user lacks, each once |
| `KuyouProfile.AchievementsPartition` | KUYOU/ViewModels/ProfileViewModel.swift:90-102 | the unlocked and the locked lists together hold each of the nine achievements exactly once |
| `KuyouProfile.MyHistories` | KUYOU/ViewModels/ProfileViewModel.swift:21-24 | a stored history is listed exactly when the user posted its id, never more often than stored |
| `KuyouProfile.PostedShows` | KUYOU/ViewModels/ProfileViewModel.swift:21-24 | a history the user has just posted is listed, and every history listed before still is |
| `KuyouProfile.ProfileViewModel.constructor` | KUYOU/ViewModels/ProfileViewModel.swift:10-13 | the screen starts with the stored user and that user's histories |
| `KuyouProfile.ProfileViewModel.LoadMyHistories` | KUYOU/ViewModels/ProfileViewModel.swift:15-28 | the screen lists the user's histories from the store, and the user stays |
| `KuyouProfile.ProfileViewModel.Refresh` | KUYOU/ViewModels/ProfileViewModel.swift:30-33 | the user is read again, then that user's histories are listed |
| `KuyouPost.TagList` | KUYOU/ViewModels/PostViewModel.swift:49 | the list holds exactly the selected tags, each once |
| `KuyouPost.PostViewModel.constructor` | KUYOU/ViewModels/PostViewModel.swift:5-11 | an empty draft in the other category with no tags, idle and without error |
| `KuyouPost.PostViewModel.RemainingCharacters` | KUYOU/ViewModels/PostViewModel.swift:23-25 | the characters left under the 500 limit, negative exactly when the draft is over it |
| `KuyouPost.PostViewModel.ToggleEmotionTag` | KUYOU/ViewModels/PostViewModel.swift:27-35 | a selected tag is removed, another is added only below three tags, so the form never holds more than three; nothing else changes |
| `KuyouPost.PostViewModel.Post` | KUYOU/ViewModels/PostViewModel.swift:37-76 | without `canPost` nothing changes; otherwise the sanitised draft is validated and concluded (the stored user exactly `Posted`, the error message kept on success), and the draft, category and tags stay |
| `KuyouPost.PostViewModel.Conclude` | KUYOU/ViewModels/PostViewModel.swift:40-75 | on a passing draft the history is stored, the stored user is exactly the loaded one after posting it (`Posted`), the success animation shows and the error message stays; on a failing one nothing is stored, the error's message shows and the form is ready again |
| `KuyouPost.PostViewModel.Publish` | KUYOU/ViewModels/PostViewModel.swift:52-58 | the history is saved, the rewrites stay, and the stored user is exactly the loaded one after posting it (`Posted`) |
| `KuyouPost.Posted` | KUYOU/ViewModels/PostViewModel.swift:55-57 | after posting, the user has the history appended to their posts and ten more points, keeps id, date and other counters, and holds every achievement the new record qualifies for, first-post included |
| `KuyouPost.PostViewModel.FinishPost` | KUYOU/ViewModels/PostViewModel.swift:62-65 | the form is empty again, in the other category with no tags, and ready to post |
| `KuyouPost.PostViewModel.ShowErrorMessage` | KUYOU/ViewModels/PostViewModel.swift:85-88 | the message is shown and nothing else of the form changes |
| `KuyouDetail.DetailViewModel.constructor` | KUYOU/ViewModels/DetailViewModel.swift:19-22 | the screen keeps the history and lists its stored rewrites, with an empty draft on the comedy route and no error |
| `KuyouDetail.DetailViewModel.LoadRewrites` | KUYOU/ViewModels/DetailViewModel.swift:24-33 | the list is the history's stored rewrites and the load is over; the rest of the screen stays |
| `KuyouDetail.DetailViewModel.SubmitRewrite` | KUYOU/ViewModels/DetailViewModel.swift:35-64 | the sanitised draft is validated and settled; no check of `canSubmitRewrite` or of a resolved history comes first |
| `KuyouDetail.DetailViewModel.Settle` | KUYOU/ViewModels/DetailViewModel.swift:38-63 | on a passing draft the rewrite is stored and listed, the stored user is exactly the loaded one after a rewrite (`Rewarded`), the draft is cleared and its sheet closed, and the error fields stay; on a failing one the store, list, draft and sheet stay and the error's message shows; the history, route and effect stay either way |
| `KuyouDetail.DetailViewModel.Accept` | KUYOU/ViewModels/DetailViewModel.swift:40-55 | the new rewrite is stored and appears in the reloaded list, the stored user is exactly `Rewarded`, the draft is cleared and its sheet closed, and the error fields and effect stay |
| `KuyouDetail.DetailViewModel.StoreRewrite` | KUYOU/ViewModels/DetailViewModel.swift:47-51 | the rewrite is in the store, the histories stay, and the stored user is exactly the loaded one after a rewrite (`Rewarded`) |
| `KuyouDetail.Rewarded` | KUYOU/ViewModels/DetailViewModel.swift:49-50 | after a rewrite the user has five more points, keeps id, date and every counter, and holds every achievement the record qualifies for |
| `KuyouDetail.DetailViewModel.LikeRewrite` | KUYOU/ViewModels/DetailViewModel.swift:66-79 | the rewrite with one more like is saved and replaces the first entry with its id on the screen; every other entry, the histories, the user and every other screen field stay |
| `KuyouDetail.DetailViewModel.SelectBestAnswer` | KUYOU/ViewModels/DetailViewModel.swift:81-109 | on a resolved history nothing changes; otherwise the history is resolved with the rewrite as best answer, both are saved, the stored user is exactly `BestAnswered`, and the flagged rewrite replaces its entry; the history is resolved afterwards either way, and the draft, route, sheet and error fields stay |
| `KuyouDetail.DetailViewModel.StoreBestAnswer` | KUYOU/ViewModels/DetailViewModel.swift:91-97 | the flagged rewrite and the resolved history are saved, and the stored user is exactly the loaded one after a best answer (`BestAnswered`) |
| `KuyouDetail.BestAnswered` | KUYOU/ViewModels/DetailViewModel.swift:94-96 | after a best answer the user has one more best answer received and fifty more points, keeps id, date, posts and salvations, and holds every achievement the new record qualifies for, first-best-answer included (and ten-best-answers at ten) |
| `KuyouDetail.DetailViewModel.GiveSalvation` | KUYOU/ViewModels/DetailViewModel.swift:111-127 | the history has one more salvation and is saved, the stored user is exactly the salvaged one (`Salvaged`), and the rewrites and every other screen field stay |
| `KuyouDetail.DetailViewModel.ShowErrorMessage` | KUYOU/ViewModels/DetailViewModel.swift:129-132 | the message is shown and nothing else of the screen changes |
| `KuyouDetail.DetailViewModel.RemainingCharacters` | KUYOU/ViewModels/DetailViewModel.swift:138-140 | the count runs down from 300 and is negative exactly when the draft is longer than 300 characters, though the filter accepts up to 500 |
| `IosModels.FormatId` | ios/KUYOU/Models/User.swift:11 | the id as at least four digits whose value is the id, a negative id keeping its minus sign inside the width |
| `IosModels.DisplayNickname` | ios/KUYOU/Models/User.swift:10-12 | a present, non-empty nickname is shown as it is; otherwise the sage prefix followed by the padded id |
| `IosModels.FallbackMatchesServer` | ios/KUYOU/Models/User.swift:11 | without a nickname, a user sees the same name the server gives their replies |
| `IosModels.FallbackNeverTruncates` | ios/KUYOU/Models/User.swift:11 | ids of five digits or more keep every digit in the fallback name |
| `IosModels.RawValue` | ios/KUYOU/Models/Post.swift:90-96 | every category the client offers is one the server accepts |
| `IosModels.CategoriesAgree` | ios/KUYOU/Models/Post.swift:90-96 | the client's categories are exactly the server's, in both directions |
| `IosAuth.FirstIndex` | ios/KUYOU/ViewModels/AuthViewModel.swift:16 | the first position of the character, or none when it does not occur |
| `IosAuth.LastIndex` | ios/KUYOU/ViewModels/AuthViewModel.swift:16 | the last position of the character, or none when it does not occur |
| `IosAuth.ValidEmail` | ios/KUYOU/ViewModels/AuthViewModel.swift:15-19 | true exactly when the whole string fits the email pattern under some split |
| `IosAuth.OnlySplit` | ios/KUYOU/ViewModels/AuthViewModel.swift:16 | a split fitting the pattern sits at the first at sign and the last dot |
| `IosAuth.AuthViewModel.constructor` | ios/KUYOU/ViewModels/AuthViewModel.swift:4-10 | an empty form in login mode, idle and without error |
| `IosAuth.AuthViewModel.CanLogin` | ios/KUYOU/ViewModels/AuthViewModel.swift:29-31 | login is enabled only for a well-formed email, a password of six or more characters and no request running |
| `IosAuth.AuthViewModel.CanRegister` | ios/KUYOU/ViewModels/AuthViewModel.swift:33-35 | registering is enabled exactly when login is and the confirmation equals the password |
| `IosAuth.AuthViewModel.Login` | ios/KUYOU/ViewModels/AuthViewModel.swift:37-45 | nothing happens unless login is enabled; otherwise a request starts with no error, and the form's text stays |
| `IosAuth.AuthViewModel.Register` | ios/KUYOU/ViewModels/AuthViewModel.swift:59-71 | nothing happens unless registering is enabled; otherwise a request starts with no error, and the form's text stays |
| `IosAuth.AuthViewModel.ReceiveCompletion` | ios/KUYOU/ViewModels/AuthViewModel.swift:46-51 | the form is idle again and a failure shows its description; the text stays |
| `IosAuth.AuthViewModel.ToggleAuthMode` | ios/KUYOU/ViewModels/AuthViewModel.swift:85-89 | the other mode, no error and an empty confirmation; email and password stay |
| `IosTimeline.FirstIndexOfPost` | ios/KUYOU/ViewModels/TimelineViewModel.swift:105 | the first position of a post with the id, or none when no post has it |
| `IosTimeline.Sympathized` | ios/KUYOU/ViewModels/TimelineViewModel.swift:92-97 | the post with the server's count and the given flag, and otherwise the same post |
| `IosTimeline.TimelineViewModel.constructor` | ios/KUYOU/ViewModels/TimelineViewModel.swift:5-13 | no posts at page one of one, idle, no error, no category and the recent order |
| `IosTimeline.TimelineViewModel.CurrentRequest` | ios/KUYOU/ViewModels/TimelineViewModel.swift:40-44 | the request asks for the current page, the chosen category's raw value if any, and the order's raw value |
| `IosTimeline.TimelineViewModel.LoadPosts` | ios/KUYOU/ViewModels/TimelineViewModel.swift:29-46 | nothing while a load runs; otherwise a refresh starts again from page one with no posts, and the current request starts with no error |
| `IosTimeline.TimelineViewModel.ReceivePosts` | ios/KUYOU/ViewModels/TimelineViewModel.swift:53-61 | a refresh replaces the posts, another load appends the page; the page count is the server's and the next page is one further |
| `IosTimeline.TimelineViewModel.ReceiveCompletion` | ios/KUYOU/ViewModels/TimelineViewModel.swift:47-52 | the load is over and a failure shows its text; the load-more flag is not cleared |
| `IosTimeline.TimelineViewModel.LoadMoreIfNeeded` | ios/KUYOU/ViewModels/TimelineViewModel.swift:66-74 | only the last post, with pages left and no load-more started, triggers one: the flag is set and, if no load runs, the error cleared and the next page requested; the pages, posts, category and order stay; the flag is never cleared |
| `IosTimeline.TimelineViewModel.ToggleSympathy` | ios/KUYOU/ViewModels/TimelineViewModel.swift:76-91 | nothing without a signed-in user; otherwise the call removing a sympathy already given, or adding one |
| `IosTimeline.TimelineViewModel.ReceiveSympathy` | ios/KUYOU/ViewModels/TimelineViewModel.swift:92-98 | the first post with the id takes the server's count and the opposite of the flag the toggle read; the load state, error, category and order stay |
| `IosTimeline.TimelineViewModel.UpdatePost` | ios/KUYOU/ViewModels/TimelineViewModel.swift:104-108 | only the first post with the id is transformed; the length, every post with another id, the load state, error, category and order stay |
| `IosTimeline.TimelineViewModel.ChangeCategory` | ios/KUYOU/ViewModels/TimelineViewModel.swift:110-113 | the category is stored and a load is running afterwards; unless one already ran, the posts are emptied, the error cleared and the first page requested for it afresh, otherwise posts, page and error stay; the page count and order stay |
| `IosTimeline.TimelineViewModel.ChangeSort` | ios/KUYOU/ViewModels/TimelineViewModel.swift:115-118 | the order is stored and a load is running afterwards; unless one already ran, the posts are emptied, the error cleared and the first page requested in it afresh, otherwise posts, page and error stay; the page count and category stay |

## Left out

- Authentication: a missing or invalid token (server/app/controllers/application_controller.rb) is not modelled, and the signed-in user is an input of every action. On the networked client, `AuthService.shared.isAuthenticated` is the parameter `isAuthenticated`.
- `pagination_meta` in the listing's answer is not modelled: the listing answers only its page of posts. On the client, the page count arrives as an input of `ReceivePosts`.
- `created_at` of a user is not modelled, so `UserSerializer`'s payload has no creation date.
- ServerModels.SameCategory: the posts table's `utf8mb4_0900_ai_ci` collation also ignores accents and other differences between Unicode letters. The model folds the case of ASCII letters only, so `?category=lóve` lists nothing here.
- ServerModels.EmailTakenIgnoringCase: the same collation on the users table, and so the unique email index, also equate accented and unaccented letters and non-ASCII case pairs. The model folds ASCII case only.
- ServerModels.NormalizedEmail: Devise downcases with Ruby's full Unicode `downcase`; the model lowers ASCII letters only.
- ServerServices.UpdatePost: a `content` or `category` sent as JSON null reaches the model as nil and fails the presence validation with 422. The model's `None` means "not sent", so it cannot express that request.
- ServerServices.UpdateProfile, ServerServices.ProfileChange, ServerStore.Store.UpdateProfile and ServerControllers.ProfilesUpdate: an `email` sent as JSON null is set to nil by Devise and refused with 422 "Email can't be blank" (server/app/models/user.rb:4-5,14). The model's email is `Option<string>`, whose `None` means "not sent", so it cannot express that request.
- Registration (`registerable`), password changes and Devise's password validations are not modelled. A profile update sends no password, so those validations do not run on it.
- `params.require` (server/app/controllers/api/v1/posts_controller.rb:76, replies_controller.rb:63, profiles_controller.rb:32): a request without the `post`, `reply` or `user` key, or with an empty one, raises `ActionController::ParameterMissing`, which Rails answers with 400. The model has no such request: its `None` fields mean that the key is present without that field.
- ServerControllers.PostsUpdate and ServerServices.UpdatePost: under `params.require`, the body `{}` answers 200 with nothing changed here, not 400.
- ServerControllers.ProfilesUpdate: under `params.require`, the body `{}` answers 200, 422 or 500 here, as the validations decide, not 400.
- ServerControllers.PostsCreate and ServerControllers.RepliesCreate: under `params.require`, the body `{}` answers 422 here, not 400.
- ServerQueries.Top and ServerControllers.UsersRanking: `limit` is a natural number here. The request's string goes to `.limit` unchecked (server/app/controllers/api/v1/users_controller.rb:14), and a value such as "-1" or "abc" ends in a 500 that the model does not express.
- ServerQueries.Index and ServerControllers.PostsIndex: `per_page` is a natural number here. Kaminari's `per` (server/app/controllers/api/v1/posts_controller.rb:19) ignores a negative or non-numeric value and keeps its default page size; the model does not express such a request.
- Integer width: `total_points` and `sympathy_count` are 32-bit integer columns, and ids are 64-bit. The model's integers are unbounded, so an overflow at the database is not modelled.
- `updated_at` of every record is not modelled; `created_at` is the time given to each operation.
- Rails logging and the client's `print` on a failed like, salvation or sympathy: output only.
- `points_history` answers a fixed message besides the points; the message text is not modelled.
- Regular expressions are modelled as the shapes they match, over Unicode scalar values. Onigmo's full notion of a word character for `\b` is approximated by ASCII word characters plus Latin letters U+00C0–U+024F (× and ÷ excepted), kana with the prolonged sound mark, CJK ideographs and full-width letters and digits.
- Swift's `count` counts grapheme clusters; here a string's length is its number of scalar values, so texts with combining marks or emoji sequences can count differently.
- IosAuth.AuthViewModel.CanRegister and IosAuth.AuthViewModel.IsValidPasswordConfirmation: Swift's `==` on strings equates canonically equivalent texts, such as "é" typed precomposed and as "e" plus a combining accent. The model compares scalar sequences, so it disables registration for such a pair where the client enables it.
- Case-insensitive search on the prototype's timeline folds ASCII letters only; locale-aware folding is not modelled.
- Randomness and the clock: the nickname generator's three random choices, `UUID()` and `Date()` are parameters.
- Concurrency: a block sent to the main queue runs at once. The prototype's reset 1.5 seconds after a post is its own method, `KuyouPost.PostViewModel.FinishPost`. On the networked client, each request is returned and its response and completion are delivered by the caller, value first.
- Network transport, JSON decoding and the networked client's services (`APIService`, `AuthService`, `PostService`) are not part of this model. Only the view models' state changes are.
- The prototype's `UserDefaults` writes and reads are infallible here. The `catch` branches that show "failed to save" (KUYOU/ViewModels/PostViewModel.swift:67-70, DetailViewModel.swift:57-59, 106-108, 124-126) are left out.
- KuyouProfile.LevelProgress: computed in exact rational arithmetic, not in `Double`.
- `sortedAchievements` (KUYOU/ViewModels/ProfileViewModel.swift:90-94) orders by the raw value's string comparison. Only what the screen lists is modelled: the unlocked and locked lists in declaration order.
- KuyouPost.TagList: `Array(selectedEmotionTags)` has no specified order, so the model lists the tags in declaration order. The contract states only what holds for every order: each selected tag exactly once.
- The prototype's timeline sort is not stable, so `KuyouTimeline.Arranged` promises only the order by key and the permutation, not the order of ties.
- The prototype's search binding is debounced (Combine, 300 ms) and calls `applyFiltersAndSort`. The binding is not modelled; the caller calls `ApplyFiltersAndSort` itself.
- Sound, haptics, animations, display names, colours and icons are presentation only.
- The prototype's mock data for debug builds is not part of this model.

## Findings

| source | as written | input that shows it | evidently intended | confidence | as-written member | corrected member |
|---|---|---|---|---|---|---|
| server/app/services/content_filters/validate_service.rb:17-23 | four services (content filter, points ledger, sympathy creation, best-reply selection) declare `private` before their instance `call`, and `self.call` sends `call` to a new instance, which raises NoMethodError | any valid post or reply creation fails with a rescued error, and any sympathy or best-answer request is answered 500 | the instance `call` is public and each entry point runs its workflow | high; not executed | `ServiceDispatch.DeclaredCreatePostAlwaysFails` | `ServiceDispatch.PublicCallsRunWorkflows` |
| server/app/controllers/api/v1/posts_controller.rb:51,63,79-83 | `authorize_user!` renders 403 but neither returns nor halts `update`/`destroy`, so the change commits and the second `render` raises | a user who does not own a post sends a valid edit of it, or deletes it | a non-owner is refused with 403 and nothing changes | high; not executed | `ServerControllers.NonOwnerEditsPost`, `ServerControllers.NonOwnerDeletesPost` | `ServerControllers.OwnerCheckIntended` |
| server/app/controllers/api/v1/replies_controller.rb:34,66-70 | `authorize_post_owner!` renders 403 but does not stop `select_best`, so a non-owner's selection resolves the post and pays the awards | a user who does not own an active post selects one of its replies | a non-owner is refused with 403 and nothing changes; the owner's selection answers 200 | high; not executed | `ServerControllers.NonOwnerSelectsBest` | `ServerControllers.RepliesSelectBest`, `ServerControllers.OwnerSelectsBest` |
| server/app/controllers/api/v1/users_controller.rb:21 | the ranking calls `user.display_nickname`, which `User` does not define | a ranking request with at least one user and a positive limit | the nickname when set, otherwise the reply pseudonym of the id | high; not executed | `ServerQueries.RankingAsWritten`, `ServerControllers.RankingCrashesWithUsers` | `ServerQueries.Ranking`, `ServerQueries.RankingIsTop` |
| server/app/controllers/api/v1/users_controller.rb:46 | `mask_email` repeats `*` `local.length - 2` times, which raises for a one-letter local part | "a@example.com" | the local part is shown up to its first two characters, with no stars when it is shorter | medium; not executed | `ServerQueries.MaskEmailAsWritten`, `ServerQueries.OneLetterLocalPartRaises` | `ServerQueries.MaskEmail`, `ServerQueries.MaskEmailShape` |
