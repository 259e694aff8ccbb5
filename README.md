# Omnivore: art distribution, grants and comment threads in Dafny

Omnivore is a Django site where users submit art pieces and receive art from
other users. This project models:

- **The distribution engine.** This chooses which piece a user receives and
  records every gift in the grant ledger. There are three flows: the weekly
  share, the one-time welcome gift, and the reciprocal gift for submitting a
  piece.
- **The comment-thread rules.** They keep exactly one conversation per piece
  and pair of users. They also route replies, decide who may post, and
  decide what the owner and a recipient see.
- **The small helpers around these.** These cover soft delete and restore,
  the "new" badge, notification redirects and user normalisation, handle
  generation, the like toggle and its signal, one-click unsubscribe, and
  the template filters.

## How the model is organised

- `common.dfy` (module `Common`): `Option`, `Result`, `Filter`, and Python's `strip`, `lower`, `upper` and `str(n)` (case mapping on ASCII letters only)
- `models.dfy` (module `Models`): the rows, the class `Db` and its `Valid()` invariant; the classes `ArtPiece` and `CustomUser`; `is_new` and `get_redirect_url`
- `username.dfy` (module `Username`): `_clean_base` and `generate_unique_username`
- `distribution.dfy` (module `Distribution`): eligibility, the uniform and weighted choosers, the welcome and reciprocal grants, `share_art`, `share_art_piece` and `thanks_for_sharing`
- `sharing.dfy` (module `Sharing`): `share_weekly_to_user`
- `weekly_command.dfy` (module `WeeklyCommand`): the `share_weekly_art` management command
- `signals.dfy` (module `Signals`): the `post_save` receiver on `Like`
- `interactions.dfy` (module `Interactions`): `toggle_like_api` and `unsubscribe_email`
- `conversations.dfy` (module `Conversations`): comment creation, the reply path and grouping in `my_shared_art`, and `art_piece_detail`
- `filters.dfy` (module `Filters`): `dict_get`, `initials` and `recency_stamp`

### The database

Each table is a field of class `Models.Db`. Primary keys are positions: the
piece with id `i` is `pieces[i]`. The same holds for comments and
notifications.

`Db.Valid()` is kept by every state-changing method that has it as a
precondition. Part of it restates constraints the schema declares:

- one `SentArtPiece` per (user, piece), from `unique_together` (main/models.py:180);
- one root comment per (piece, sender, recipient), from the conditional
  unique constraint (main/models.py:243-249).

The rest are not declared by the schema. They are invariants that the
modelled flows keep, and the model assumes them of the initial state:

- a reply's parent is an earlier root on the same piece (`parent_comment` is
  a plain foreign key, main/models.py:237);
- one shared-art notification per (recipient, sender, piece) (the
  `Notification` model has no constraint; with two such rows the
  `get_or_create` of main/services/sharing.py:42 would raise);
- reciprocal grant triggers are existing pieces;
- users are in id order.

Two one-to-one relations are map keys:

- `WelcomeGrant.user` is the key of `welcomeGrants`;
- `ReciprocalGrant.trigger_art_piece` is the key of `reciprocalGrants`.

### Inputs from outside

- **Randomness.** `random.choice(xs)` is `xs[pick % |xs|]` for a
  caller-supplied `pick`. The k-th call to `random.randint(lo, hi)` in
  username generation is `lo + draw(k) % (hi - lo + 1)`.
- **The clock.** It is a `now: Time` parameter.
- **`slugify`.** It is a parameter of type `string -> string`.
- **The e-mail dispatcher.** An e-mail request is an `Event` appended to the
  `outbox` field. Whether the mailer raises after the writes are committed
  is the parameter `mailerFails`.
- **The unsubscribe token.** Loading it is an oracle result of type
  `TokenLoad`.

### Behaviour of the code worth knowing

- **Soft-deleted pieces stay in the pool.** The model has a manager,
  `active`, that hides deleted pieces (main/models.py:123). The choosers
  `choose_art_piece` and `choose_welcome_piece_weighted` query through
  `objects` and never look at `is_deleted` (main/views.py:64-72, 454-461).
  `soft_delete` sets `approved_status = False` (main/models.py:132), but
  leaves that field out of `update_fields` (main/models.py:133-134), so the
  stored row stays approved. A soft-deleted, approved piece can therefore
  still be chosen. The model follows the code
  (`Distribution.SoftDeletedStaysEligible`, `Models.SoftDeleteStored`).
- **Owner's conversation order.** `art_piece_detail` sorts the owner's
  comments by `created_at` and groups them by the other participant, so the
  groups come in order of first appearance (main/views.py:348-358). The test
  at main/tests/test_comments.py:131-162 expects the newest activity first.
  The template that renders the page is not part of this model, so which
  order the page shows is not decided here. The model states the view as
  written (`Conversations.GroupedSpec`) and the test's order separately
  (`Conversations.ThreadsByLatest`).
- **The `my_shared_art` reply path.** It checks neither that the user takes
  part in the thread nor that the comment belongs to one of their pieces.
  It sends no notification. The model does the same
  (`Conversations.ReplyViaSharedArt`).
- **The `comments_create` handler.** Its code is not part of this model.
  Its rules come from main/tests/test_comments.py. The order of the checks
  is a modelling choice: unknown piece 404, then missing text 400, then
  non-participant 403, then root-reference errors.
- **`recency_stamp`.** It shows the weekday for any date less than 7 days
  before today, and so also for dates after today.
- **`share_weekly_art --limit`.**
  - A limit of 0 is falsy and selects every matching user.
  - A negative limit makes the queryset slice raise before any user is
    processed.
  - The model returns `Err(NegativeLimit)` for that case.
- **`unsubscribe_email`.** A `uid` of 0 is falsy and is a bad request.

## Model

| member | source | states |
|---|---|---|
| `Models.FindSent` | main/views.py:338-339 | the `SentArtPiece` row for (user, piece) if there is one; None exactly when no row matches |
| `Models.SentUniqueCount` | main/models.py:179-180 | under `unique_together`, the number of rows for (user, piece) is 1 when one exists and 0 otherwise |
| `Models.Truncate` | main/models.py:131 | `reason[:200]`: the input itself when it has at most 200 characters, otherwise its first 200 |
| `Models.ArtPiece.SoftDelete` | main/models.py:125-134 | a deleted piece is left alone. Otherwise the flag, time, deleter and 200-character reason are set and `approved_status` is cleared in memory. Only the four deletion fields reach the stored row, so the stored approval is unchanged |
| `Models.ArtPiece.Restore` | main/models.py:137-145 | no-op on a live piece; otherwise clears the four deletion fields in memory and in the stored row and never touches approval |
| `Models.SoftDeleteStored` | main/models.py:125-134 | soft-deleting a freshly loaded piece stores a deleted row whose approval is the one it had |
| `Models.SoftDeleteIdempotent` | main/models.py:126-127 | a second soft delete stores the same row as the first |
| `Models.IsNew` | main/models.py:172-177 | false once `seen_at` is set; otherwise true iff the piece was sent at most 30 days before `now` |
| `Models.IsNewExpires` | main/models.py:172-177 | a piece that is not new stays not new at any later time |
| `Models.GetRedirectUrl` | main/models.py:325-341 | the notifications page iff there is no piece. Otherwise the piece page with `n` = id first, then `focus=thread&other=sender` for a comment, or `focus=piece` for a like or shared art |
| `Models.StripIfSet` | main/models.py:56-59 | the `if value:` guard is harmless: the result is the stripped value in every case |
| `Models.NormaliseEmail` | main/models.py:54-55 | the e-mail after `if email:`: always the stripped, lower-cased input |
| `Models.CustomUser.Normalise` | main/models.py:53-59 | e-mail stripped and lower-cased, names stripped |
| `Models.CustomUser.FillUsername` | main/models.py:61-68 | a non-empty username is kept; an empty one becomes the generated handle for the current names and e-mail |
| `Models.CustomUser.Save` | main/models.py:52-70 | normalisation, then a generated handle only for an empty username, computed from the normalised fields |
| `Username.CollapseHyphens` | main/utils/username.py:8 | the result has no two adjacent hyphens, the same non-hyphen characters in order, ends in a hyphen iff the input does, and is empty iff the input is |
| `Username.CollapseKeepsSingles` | main/utils/username.py:8 | a string with no two adjacent hyphens is left unchanged |
| `Username.CollapseDoubleHyphen` | main/utils/username.py:8 | two adjacent hyphens anywhere collapse exactly as one would, so every run of hyphens becomes a single hyphen |
| `Username.CleanBase` | main/utils/username.py:6-8 | a cleaned base neither starts nor ends with a hyphen and never has two in a row. It keeps every non-hyphen character of `slugify(s)`, in order, and is the collapsed slug with only hyphens removed from its two ends |
| `Username.LocalPart` | main/utils/username.py:15 | the prefix of the e-mail before its first `@`, with no `@` in it |
| `Username.Draw` | main/utils/username.py:22 | `randint(lo, hi)` lies in `lo..hi` |
| `Username.Candidates` | main/utils/username.py:21-23 | three handles are tried per base |
| `Username.CandidatesAt` | main/utils/username.py:21-23 | the handle tried at position `3i + j` is base `i` with its `j`-th suffix |
| `Username.CandidatesHaveShape` | main/utils/username.py:22-23 | every tried handle is a base followed by nothing, a number in 100..999 or a number in 1000..9999 |
| `Username.FirstFree` | main/utils/username.py:28-29 | a candidate that is not taken case-insensitively and sits at a position before which every candidate is taken; None iff all are taken |
| `Username.FirstFreeSkipsTaken` | main/utils/username.py:21-29 | when every candidate before a position is taken, the search result is decided by the candidates from that position on |
| `Username.ChosenHandleProperties` | main/utils/username.py:20-31 | the handle is untaken and has a candidate shape, or every candidate was taken and it is `user` followed by a number in 10000..99999 |
| `Username.KeptBasesEndInUser` | main/utils/username.py:16-18 | keeping the usable entries of a list ending in `user` keeps `user` last, and every kept base has at least 3 characters |
| `Username.BasesProperties` | main/utils/username.py:12-18 | the kept bases all have at least 3 characters and `user` is always the last of them |
| `Username.KeepUsableBases` | main/utils/username.py:16-18 | the loop keeps exactly the usable bases, in the order b1, b2, b3, `user` |
| `Username.SearchTaken` | main/utils/username.py:24-28 | recording a taken handle with a fresh key keeps the search invariant one position on |
| `Username.SearchSkip` | main/utils/username.py:25-26 | skipping a key met before keeps the search invariant, because that handle case-insensitively equals one already found taken |
| `Username.TryHandle` | main/utils/username.py:23-29 | a fresh untaken handle is the first untaken candidate; otherwise the search invariant moves one position on |
| `Username.TryBase` | main/utils/username.py:22-29 | the inner loop returns the first untaken candidate, or when all three are taken passes the invariant to the next base; lookups never repeat a key |
| `Username.SearchHandles` | main/utils/username.py:20-31 | the nested loop returns the first untaken candidate or the fallback, and the handles it looks up are pairwise distinct after lower-casing |
| `Username.GenerateUniqueUsername` | main/utils/username.py:11-31 | the handle is the one `ChosenHandle` determines from the usable bases |
| `Filters.DictGet` | main/templatetags/custom_filters.py:8-10 | the mapped value for a present key, None for an absent one |
| `Filters.Head` | main/templatetags/custom_filters.py:16-17 | `s[:1]`: empty for an empty string, otherwise the first character alone |
| `Filters.InitialsOf` | main/templatetags/custom_filters.py:18 | one or two characters: the upper-cased first characters of the non-empty names, or `?` when both are empty |
| `Filters.Initials` | main/templatetags/custom_filters.py:13-18 | the same, in terms of the stripped attributes, with a missing name counting as empty. The result is `?` iff both names are blank or the only non-blank one starts with `?` |
| `Filters.RecencyStamp` | main/templatetags/custom_filters.py:21-37 | nothing iff no datetime. Otherwise the time iff today, the weekday iff another day less than 7 days back, and the date iff 7 or more days back. Exactly one applies |
| `Filters.StampOnlyAges` | main/templatetags/custom_filters.py:33-37 | as a past message ages, its stamp moves only from time to weekday to date |
| `Filters.StampByAge` | main/templatetags/custom_filters.py:33-37 | 1 to 6 days back shows the weekday, 7 or more the date |
| `Signals.CreateLikeNotification` | main/signals.py:6-20 | one "like" notification to the piece's owner from the liker about the piece, only for a new like by someone else; otherwise nothing |
| `Interactions.Toggled` | main/views.py:394-399 | the toggled like flips, every other like is unchanged |
| `Interactions.ToggleTwice` | main/views.py:394-399 | toggling twice restores the like table |
| `Interactions.ToggleCount` | main/views.py:394-404 | the piece's count goes down one on an unlike and up one on a like; other pieces' counts stay |
| `Interactions.ToggleLikeApi` | main/views.py:387-409 | 404 and no writes for an unknown piece. Otherwise the like is toggled, and the response gives the new state and the piece's count. Only a creation fires the like signal |
| `Interactions.KindToField` | main/views.py:649-653 | `art`, `comment` and `like` map to their preference field in both directions, anything else to None |
| `Interactions.TurnOff` | main/views.py:698 | the chosen preference is off and every other preference and field is kept |
| `Interactions.FindUser` | main/views.py:688-690 | the position of the user with that primary key, None iff there is none |
| `Interactions.UnsubscribeEmail` | main/views.py:662-705 | an expired or bad token, a missing or zero uid, an unknown kind, and an unknown user each give their error and change nothing. Otherwise exactly that user's preference for that kind is turned off |
| `Distribution.ChooseArtPiece` | main/views.py:452-467 | None iff no piece is approved, someone else's and unsent to the user; a chosen piece is all three |
| `Distribution.ChooseArtPieceCovers` | main/views.py:463-465 | every eligible piece is chosen by some draw |
| `Distribution.ChoiceIgnoresOtherUsers` | main/views.py:452-467 | sent rows appended for other users do not change a user's weekly choice |
| `Distribution.SoftDeletedStaysEligible` | main/views.py:454-461 | an eligible piece that is soft-deleted is still eligible |
| `Distribution.ChosenIsRow` | main/views.py:452-467 | the chosen id is a row of the table, and that row is eligible |
| `Distribution.Clamp` | main/views.py:83 | `max(1, weight)`: at least 1 and at least the weight, and equal to one of the two |
| `Distribution.WeightedBag` | main/views.py:80-83 | the bag is at least as long as the pool and holds exactly the pool's ids |
| `Distribution.RepeatCount` | main/views.py:83 | `[id] * n` holds `id` exactly `n` times and nothing else |
| `Distribution.WeightedBagMultiplicity` | main/views.py:81-83 | over a pool with distinct ids, each id appears exactly `max(1, weight)` times |
| `Distribution.WelcomeChoice` | main/views.py:65-86 | None iff no piece is welcome-eligible for the user; a chosen id belongs to a welcome-eligible piece not yet sent |
| `Distribution.WelcomeBagContents` | main/views.py:65-86 | every id in the bag is a welcome-eligible row, and each such piece appears `max(1, weight)` times |
| `Distribution.ChooseWelcomePieceWeighted` | main/views.py:65-86 | the loop of `extend` builds the weighted bag and the draw is `WelcomeChoice` |
| `Distribution.MarkArtPieceAsSent` | main/views.py:470-472 | appends exactly one row with the given source, or fails with an integrity error and no write when the pair already has one |
| `Distribution.NotSentHasNoRow` | main/views.py:459-461 | a piece outside the user's sent set has no row, so the insert succeeds |
| `Distribution.GetOrCreateWelcomeGrant` | main/views.py:94-97 | the user's grant exists afterwards; an existing grant is untouched and a new one is empty |
| `Distribution.EnsureWelcomeGift` | main/views.py:89-111 | a grant with a piece returns it and writes nothing. Otherwise the weighted choice is stored in the grant and, when there is one, recorded once as "welcome". An empty pool leaves the grant empty |
| `Distribution.FillWelcomeGrant` | main/views.py:102-111 | the grant gets the weighted choice, and one "welcome" row is added exactly when there is a choice |
| `Distribution.WelcomeTwice` | main/views.py:89-111 | two calls in a row return the same result and add at most one welcome row in total |
| `Distribution.EnsureReciprocalGrant` | main/views.py:133-152 | an existing grant returns its stored piece and writes nothing. A new grant runs the chooser once, stores its result, and records a found piece once as "reciprocal" |
| `Distribution.ShareArt` | main/views.py:114-158 | an invalid form writes nothing. A valid one always saves the new piece. A paused user gets no grant. Otherwise the reciprocal grant for the new piece is created with one choice |
| `Distribution.ShareArtPiece` | main/views.py:475-486 | None and no write for a paused user. Otherwise the uniform choice, recorded as "weekly" unless it is a dry run or there is no choice |
| `Distribution.ThanksPiece` | main/views.py:165-181 | the thank-you page shows a piece iff the request names one that was sent to this user as a reciprocal gift |
| `Sharing.FindSharedArtNote` | main/services/sharing.py:42-50 | the shared-art notification for (recipient, sender, piece) if there is one; None iff none |
| `Sharing.SharedArtUniqueCount` | main/services/sharing.py:42-50 | under the table invariant there is at most one such notification |
| `Sharing.GetOrCreateSent` | main/services/sharing.py:39-41 | an existing row is returned unchanged, source included; otherwise one "weekly" row is appended |
| `Sharing.GetOrCreateSharedArtNote` | main/services/sharing.py:42-50 | an existing notification is returned and nothing is written; otherwise exactly one is appended |
| `Sharing.ShareWeeklyToUser` | main/services/sharing.py:18-61 | pause, an empty pool and a dry run return early with no write. Otherwise there is exactly one sent row and exactly one shared-art notification from the owner: the existing one with the table unchanged, or one new unread row appended. One e-mail request naming that notification is queued, and the piece is returned unless the mailer raised |
| `Sharing.DeliverWeekly` | main/services/sharing.py:38-59 | the writes of a weekly share: one new sent row, exactly one notification for the triple (an existing one kept, or one appended and nothing else changed), one e-mail request naming that notification, whose id the call returns |
| `Sharing.RecordWeeklySent` | main/services/sharing.py:39-41 | for an unsent piece, exactly one new "weekly" row |
| `Sharing.NotifySharedArt` | main/services/sharing.py:42-59 | exactly one notification for the triple afterwards: the table is unchanged when it existed, otherwise the new unread row is appended. The returned id is that notification's, and the one e-mail request names it |
| `WeeklyCommand.SelectedUsers` | main/management/commands/share_weekly_art.py:20-25 | only subscribed users matching the e-mail filter. With no limit, or a limit of 0, every such user. With a positive limit, the first `min(limit, count)` of them |
| `WeeklyCommand.FilterKeepsOrder` | main/management/commands/share_weekly_art.py:24-25 | filtering users kept in id order keeps them in id order |
| `WeeklyCommand.LimitTakesSmallestIds` | main/management/commands/share_weekly_art.py:24-25 | `--limit N` keeps the matching users with the smallest ids |
| `WeeklyCommand.Tally` | main/management/commands/share_weekly_art.py:27-49 | processed counts every outcome. In a real run it is `sent_ok + skipped + failed`. `failed` counts the failed outcomes, `skipped` the outcomes with no piece, and `sent_ok` the outcomes with a piece, except in a dry run, where it is 0 |
| `WeeklyCommand.TryShare` | main/management/commands/share_weekly_art.py:32-34 | a failure happens only when the mailer raises outside a dry run. A completed share returns nothing for a paused user and otherwise the weekly choice over the sent table as it was. A piece reported in a real run has its sent row. A dry run writes nothing. A real run only appends weekly rows, shared-art notifications and shared-art e-mail requests for this user |
| `WeeklyCommand.ProcessUser` | main/management/commands/share_weekly_art.py:30-49 | one iteration adds exactly one step of the tally for its outcome, with the same outcome and write guarantees as the `try` block |
| `WeeklyCommand.ShareAll` | main/management/commands/share_weekly_art.py:29-49 | one outcome per selected user, in order, with the counters their tally. Each outcome is a failure only where the mailer raised, and otherwise that user's weekly choice over the sent table the run started with. Every piece reported sent has its row. A real run writes only weekly shares for these users, and a dry run writes nothing |
| `WeeklyCommand.ShareNext` | main/management/commands/share_weekly_art.py:30-49 | one pass of the loop keeps both loop facts: the outcomes so far are tallied, fail only where the mailer raised and match the choices over the starting sent table, and the writes so far are weekly shares for the users processed |
| `WeeklyCommand.ChoiceKept` | main/management/commands/share_weekly_art.py:29-34 | in id order, the weekly rows written for earlier users leave a later user's choice as it was at the start of the run |
| `WeeklyCommand.SelectedOrdered` | main/management/commands/share_weekly_art.py:20-25 | the selected users keep the table's id order |
| `WeeklyCommand.Handle` | main/management/commands/share_weekly_art.py:18-56 | a negative limit is an error with no write. Otherwise exactly the selected users are processed, once each and in order, and the counters are the tally of their outcomes. A failure does not stop the loop. Each completed outcome is that user's weekly choice over the sent table the run started with, and each piece reported sent has exactly one sent row. A real run only appends weekly rows, shared-art notifications and e-mail requests for selected users. A dry run writes nothing |
| `Conversations.FindRoot` | main/tests/test_comments.py:67-98 | the root for (piece, sender, recipient) if it exists; None iff none |
| `Conversations.PlanReply` | main/tests/test_comments.py:36-57 | a post naming a root is accepted iff the root is on the piece and the caller is one of its two participants. It then goes under that root to the other participant |
| `Conversations.PlanStart` | main/tests/test_comments.py:10-34 | a post with no root reference is refused iff the caller is the owner. Otherwise it goes to the owner, under the caller's existing root if there is one |
| `Conversations.PlanComment` | main/tests/test_comments.py:10-105 | an accepted post is on an existing piece, by the owner or a recipient, with its text stripped. A reply goes to the other participant of a root on the piece. A new root comes only from a non-owner who has none |
| `Conversations.CommentsCreate` | main/tests/test_comments.py:10-129 | a refused post writes nothing. An accepted one is stored as planned. A notification and an e-mail request are added exactly when the recipient is not the sender |
| `Conversations.StoreComment` | main/models.py:243-249 | appending a comment that respects the root and parent rules keeps the one-root-per-triple constraint |
| `Conversations.NotifyComment` | main/tests/test_comments.py:107-120 | one comment notification to the recipient from the sender about the piece, and one e-mail request |
| `Conversations.NonParticipantCannotComment` | main/tests/test_comments.py:59-65 | someone who neither owns nor received the piece is always refused, with 403 when the text is given |
| `Conversations.OwnerCannotStartThread` | main/tests/test_comments.py:26-34 | the owner's post without a root reference is refused |
| `Conversations.MissingTextRejected` | main/tests/test_comments.py:100-105 | missing or blank text is a 400 |
| `Conversations.RecipientStartRouting` | main/tests/test_comments.py:10-24 | a recipient's start goes to the owner, as a new root when there is none and under the existing root otherwise |
| `Conversations.OwnerReplyRouting` | main/tests/test_comments.py:36-57 | the owner replying with a root's id answers that root's sender under that root |
| `Conversations.StartTwiceCoalesces` | main/tests/test_comments.py:67-98 | after a first start opened the root, a second start by the same recipient is planned as a reply under it, never as a second root |
| `Conversations.RootOf` | main/views.py:250-253 | walking `parent_comment` up ends at a root on the same piece |
| `Conversations.ReplyViaSharedArt` | main/views.py:246-270 | 404 for an unknown comment and no write when the text is invalid. Otherwise one reply from the user to the root's sender, on the root's piece, under the root |
| `Conversations.SortBy` | main/views.py:348-352 | `order_by("created_at")` gives a sorted permutation of its input |
| `Conversations.GroupedSpec` | main/views.py:355-358 | one group per other participant who appears, each holding exactly the comments exchanged with them, in order |
| `Conversations.GroupConversations` | main/views.py:355-358 | the grouping loop builds exactly those groups |
| `Conversations.ArtPieceDetail` | main/views.py:331-384 | 404 iff the viewer neither owns nor received the piece. The owner sees their comments on it, sorted and grouped by the other participant. A recipient sees, in creation order, exactly their comments with the owner on it |
| `Conversations.OwnerModeContents` | main/views.py:346-358 | every message the owner's page shows is a comment on the piece that involves the owner, in the group of its other participant |
| `Conversations.ThreadsByLatest` | main/tests/test_comments.py:131-162 | the same conversations, ordered by latest activity, newest first |
| `Conversations.PieceConversations` | main/views.py:230-235 | None iff the piece has no comments; otherwise its comments in creation order grouped by the other participant |
| `Conversations.MySharedArtConversations` | main/views.py:215-244 | an entry exactly for each of the user's pieces with comments, holding that piece's grouped conversations |

## Left out

- Concurrency: `transaction.atomic`, `select_for_update` and races between requests. Each flow is one sequential atomic step, and the uniqueness constraints are invariants of `Db`.
- The probability law of `random.choice`: draws are parameters. The model proves membership and multiplicity of the weighted bag, not the distribution.
- E-mail transport and the preference check inside the mail helpers. These are in main/notifications_email.py and main/mail.py, which are not part of this model. An e-mail request is an event in `Db.outbox`.
- Notification `message` texts.
- Unsubscribe token signing and expiry: `TokenLoad` is what loading the token yields. The `KIND_LABELS` default label is unreachable, because an unknown kind is rejected first.
- `public_id`: pieces are addressed by their primary key.
- Models.GetRedirectUrl: ids start at 0 in the model and at 1 in the database, so the model sends a notification about the piece with id 0 to its page, where `not self.art_piece_id` (main/models.py:326) would send it to the notifications page. No database row has id 0.
- `strftime`, `localtime` and time zones in `recency_stamp`: dates are day numbers and only the day classification is modelled.
- Case mapping: `lower` and `upper` change only the ASCII letters. `strip` removes every character Python's `str.isspace` accepts.
- `slugify`: a parameter, with no properties assumed.
- Marking the `n` notification read in `my_shared_art`. It is a bulk update that does not touch threads.
- The `likes_dict` of `my_shared_art`.
- The `-created_at` order of `my_pieces`: the model's result is a map keyed by piece, so order does not matter.
- Query order: a queryset without `order_by` yields table order, which is id order.
- Rendering, `messages`, stdout output of the command, and the connection reuse of the mailer.
- The HTTP plumbing: the `hx-request` header and form parsing become parameters (`Option` values for missing fields).
- `my_received_art`, `edit_art_piece`, `delete_art_piece` and the notification views: outside the modelled core.
- Persisting `CustomUser`: the database-level unique constraints on lower-cased e-mail and username, and `max_length=150`, are not modelled. `CustomUser` holds only the four fields `save` changes.
- `last_art_sent_at` is never written by the modelled code and is not a field of the model.
- WeeklyCommand.Handle: it does not say which piece owner each new notification and e-mail request names, only that they are shared-art writes for selected users. The exact writes per user are stated by `Sharing.ShareWeeklyToUser`.
