# Planning poker: rooms, votes and the optimistic client, in Dafny

This project models the core of a planning-poker web application. Users create rooms, join them by
link (a hyphenated slug), cast a card value, reveal or hide the votes, and reset them.

- **Server.** The room and vote procedures run over an in-memory store (`Store.Database`). It has:
  - a Room table in creation order;
  - a Vote table keyed by `(userId, roomId)`;
  - the log of notifications published to the pub/sub service;
  - an abstract clock for `createdAt` and `deletedAt`.

  Every procedure is a method that either changes the store as the code does or returns the
  error the code throws. The read procedures are functions over the tables.
- **Client.** The model covers:
  - the two query-cache entries a room page reads (by id and by slug);
  - the optimistic updates the room-actions hook and the older room page apply to them, with
    snapshot and rollback;
  - the vote-card selection;
  - the lookup choice and error latch of the room-data hook;
  - the results list with its masked vote badges;
  - the profile form's validators.
- **Cross-layer.** The module `Consistency` relates the optimistic guesses to the server's
  tables.

Modules, one per file:

| file | module | models |
|---|---|---|
| `wrappers.dfy` | `Wrappers` | `Option`, `Result` |
| `text.dfy` | `Text` | JavaScript white space, `trim`, string truthiness |
| `store.dfy` | `Store` | the database rows, errors and `Database` class |
| `room_router.dfy` | `RoomRouter` | `src/server/api/routers/room.ts` |
| `vote_router.dfy` | `VoteRouter` | `src/server/api/routers/vote.ts` |
| `client_room.dfy` | `ClientRoom` | the room the client receives, vote-list filtering, the query cache |
| `room_actions.dfy` | `RoomActions` | `src/app/hooks/useRoomActions.tsx` |
| `room_page.dfy` | `RoomPage` | `src/app/_components/RoomPage.tsx` |
| `results_area.dfy` | `ResultsArea` | `src/app/_components/ResultsArea.tsx` (and the same list in `RoomPage.tsx`) |
| `room_data.dfy` | `RoomData` | `src/app/hooks/useRoomData.tsx` |
| `profile_page.dfy` | `ProfilePage` | the validators of `src/app/_components/ProfilePage.tsx` |
| `consistency.dfy` | `Consistency` | optimistic client against server, Reset button against owner check |

## Model

| member | source | states |
|---|---|---|
| Text.Trim | src/server/api/routers/room.ts:47-49 | `trim` keeps a contiguous slice of the input with only white space cut on either side, and the result neither starts nor ends with white space |
| Text.TrimIdempotent | src/app/_components/ProfilePage.tsx:47-48 | trimming twice is trimming once |
| RoomRouter.CountVisible | src/server/api/routers/room.ts:22-31 | the quota count is at most the number of rows |
| RoomRouter.CountVisibleAppend | src/server/api/routers/room.ts:22-31 | a new row the user is in raises their count by exactly one, and any other row leaves it unchanged |
| RoomRouter.Create | src/server/api/routers/room.ts:12-57 | fails on an empty name (input schema). Fails with BAD_REQUEST iff the caller is already in 10 or more non-deleted rooms, so it succeeds at 9. On success it appends one row: the trimmed name and description, the caller as owner and only participant, `votesVisible` as given or false. The count then rises by one and stays at most 10. Nothing else changes |
| RoomRouter.AppendNewestKeepsInvariant | src/server/api/routers/room.ts:45-56 | appending a freshly created row preserves the store invariant |
| RoomRouter.Join | src/server/api/routers/room.ts:59-74 | connects the caller to the room with that id, deleted or not; a missing room is a not-found failure; nothing else changes |
| Store.FindById | src/server/api/routers/room.ts:114-119 | `findUnique` by primary key: the position of a row with that id, deleted or not, or none iff no row has that id |
| RoomRouter.FindActiveBySlug | src/server/api/routers/room.ts:83-88 | `findFirst` with that slug and `deletedAt` null: a matching row (the model takes the first in table order), or none iff no row matches |
| RoomRouter.JoinBySlug | src/server/api/routers/room.ts:76-105 | "Room not found" when no non-deleted room has the slug; otherwise adds the caller to the participants of the row `FindActiveBySlug` picks and changes nothing else |
| RoomRouter.JoinAgainIsNoOp | src/server/api/routers/room.ts:97-104 | connecting an existing participant leaves the room unchanged |
| RoomRouter.Leave | src/server/api/routers/room.ts:107-153 | "Room not found" for a missing id (deleted rooms are still found). The owner always gets FORBIDDEN. With one participant the room gets `deletedAt` and keeps its participants. Otherwise only the caller is disconnected. The branch taken is `LeavePlan` (lines 128-143): refused for the owner, soft delete for one participant, disconnect otherwise |
| RoomRouter.LeaveSoftDeletesOnlyForOutsiders | src/server/api/routers/room.ts:128-143 | because the owner is always a participant and is refused, the soft-delete branch is reached only when the sole participant is the owner and the caller is not in the room |
| RoomRouter.OutsiderLeaveDeletesRoom | src/server/api/routers/room.ts:135-143 | concrete case: Bob, not in Alice's one-person room, reaches the soft-delete branch |
| RoomRouter.MemberLeavePlan | src/server/api/routers/room.ts:121-152 | corrected decision: a caller who is neither owner nor participant is refused; for everyone else the plan is the code's |
| RoomRouter.MemberLeaveNeverSoftDeletes | src/server/api/routers/room.ts:135-143 | under the corrected decision no caller soft-deletes a room its owner is still in |
| RoomRouter.GetRoom | src/server/api/routers/room.ts:155-194 | returns the room with that id only if it is not deleted and the caller is a participant, with exactly the room's votes; otherwise "Room not found", and then no such visible row exists |
| RoomRouter.GetBySlug | src/server/api/routers/room.ts:196-235 | returns a row with that slug that is not deleted and has the caller (the model takes the first in table order), with its votes; otherwise "Room not found", and then no such row exists |
| RoomRouter.ListRooms | src/server/api/routers/room.ts:237-251 | contains exactly the non-deleted rooms that have the caller as a participant, one entry per row |
| RoomRouter.ListRoomsNewestFirst | src/server/api/routers/room.ts:247-249 | the list is ordered by `createdAt`, strictly descending |
| RoomRouter.ToggleVotesVisible | src/server/api/routers/room.ts:253-277 | "Room not found" for a missing id; otherwise negates `votesVisible` of that room and changes nothing else |
| RoomRouter.Toggled | src/server/api/routers/room.ts:268-273 | the toggled row differs from the original only in `votesVisible`, which is negated |
| RoomRouter.ToggleTwiceRestores | src/server/api/routers/room.ts:268-273 | two toggles restore the row |
| RoomRouter.Delete | src/server/api/routers/room.ts:279-310 | "Room not found" for a missing id; FORBIDDEN for anyone but the owner; otherwise only sets `deletedAt` |
| VoteRouter.GetVotes | src/server/api/routers/vote.ts:73-84 | exactly the rows whose `roomId` is the input, with their values |
| VoteRouter.GetVotesOnePerUser | src/server/api/routers/vote.ts:80-83 | the unique key leaves at most one vote per user in a room |
| VoteRouter.VotesAfterCast | src/server/api/routers/vote.ts:14-39 | a null value leaves no row for `(caller, roomId)`; any other value leaves exactly that row with that value; no other key is touched |
| VoteRouter.CastVoteIdempotent | src/server/api/routers/vote.ts:24-39 | casting the same value twice leaves the table as casting once |
| VoteRouter.CastVote | src/server/api/routers/vote.ts:6-45 | null deletes the caller's row and publishes nothing; deleting a missing row fails. Any other value upserts the row, then publishes `vote-update` on `room-{roomId}`; creating a row for a missing room fails. Rooms are untouched |
| VoteRouter.VotesOutsideRoom | src/server/api/routers/vote.ts:63-65 | `deleteMany` keeps exactly the votes of other rooms, with their values |
| VoteRouter.ResetRemovesRoomVotes | src/server/api/routers/vote.ts:63-65 | the table's keys split into the kept rows (other rooms) and the removed rows (this room), with no key in both, so the reported count is the table's size less the kept rows |
| VoteRouter.ResetVotes | src/server/api/routers/vote.ts:47-71 | throws unless the room exists and the caller owns it (`MayReset`, lines 55-61). Otherwise it removes every vote of the room and none of any other room, and returns the number removed. Then `vote-reset` is published. Rooms, and so `votesVisible`, are untouched |
| ClientRoom.Select | src/app/hooks/useRoomActions.tsx:37-39 | the filter keeps exactly the entries on the chosen side of the user test |
| ClientRoom.SelectAppend | src/app/hooks/useRoomActions.tsx:37-41 | filtering distributes over concatenation |
| ClientRoom.SelectOfSelect | src/app/hooks/useRoomActions.tsx:37-39 | filtering is idempotent, and the user's votes are gone after dropping them |
| ClientRoom.ReplaceOwnVote | src/app/hooks/useRoomActions.tsx:37-51 | other users' votes are unchanged and in their original order. The user's own votes are exactly the new entry, last in the list, or none |
| ClientRoom.Previous | src/app/hooks/useRoomActions.tsx:29-31 | the snapshot is the by-id entry when present, else the by-slug entry |
| ClientRoom.RolledBack | src/app/hooks/useRoomActions.tsx:61-73 | with a snapshot both entries become it; without one nothing changes |
| ClientRoom.RollbackRestoresSnapshot | src/app/hooks/useRoomActions.tsx:29-73 | for any update that keeps an absent entry absent: snapshot, update, rollback gives back the snapshot. It restores the whole cache exactly when both entries were equal before |
| ClientRoom.QueryCache.SetById | src/app/hooks/useRoomActions.tsx:54 | `setData` on the by-id entry applies the update to it, keeps the entry when the update yields nothing, and leaves the other entry alone |
| ClientRoom.QueryCache.SetBySlug | src/app/hooks/useRoomActions.tsx:55 | the same for the by-slug entry |
| RoomActions.CastUpdate | src/app/hooks/useRoomActions.tsx:35-52 | an absent entry stays absent. In a cached room, only `votes` changes: other users' votes are kept in order. The user ends up with one placeholder vote holding the new value, or none for null. The placeholder is `TempVote` (lines 42-49): id `temp-` and the user's id, both timestamps `now` |
| RoomActions.ResetUpdate | src/app/hooks/useRoomActions.tsx:94-97 | an absent entry stays absent; otherwise the votes become empty and hidden, and nothing else changes |
| RoomActions.ToggleUpdate | src/app/hooks/useRoomActions.tsx:137-140 | an absent entry stays absent; otherwise only `votesVisible` changes, negated |
| RoomActions.ToggleUpdateTwice | src/app/hooks/useRoomActions.tsx:137-140 | two optimistic toggles are the identity |
| RoomActions.Transform | src/app/hooks/useRoomActions.tsx:36 | every mutation's update maps an absent entry to absent (lines 36, 95, 138) |
| RoomActions.OnMutate | src/app/hooks/useRoomActions.tsx:22-60 | with no room or no session nothing changes and no snapshot is taken. Otherwise the snapshot is taken and the same update goes to both entries (lines 82-104 and 125-147 alike) |
| RoomActions.OnError | src/app/hooks/useRoomActions.tsx:61-73 | with a snapshot both entries are set back to it (lines 105-117 and 148-160 alike) |
| RoomActions.Mutate | src/app/hooks/useRoomActions.tsx:21-79 | with no room or no session nothing changes. On success the cache holds the optimistic update. On failure each entry is the update's result rolled back to the snapshot: both are the snapshot when one was taken, and the cache is exactly as before when its entries agreed |
| RoomActions.HandleVote | src/app/hooks/useRoomActions.tsx:198-207 | with no room, nothing. Otherwise the request casts exactly the new selection. The selection is cleared iff the clicked card was already selected, and is otherwise that card |
| RoomActions.HandleVoteTwice | src/app/hooks/useRoomActions.tsx:198-207 | clicking a card twice ends with it selected iff it was selected at first |
| RoomActions.HandleResetVotes | src/app/hooks/useRoomActions.tsx:209-213 | with a room, clears the selection and requests a reset; without one, nothing |
| RoomActions.HandleToggleVotesVisible | src/app/hooks/useRoomActions.tsx:215-218 | requests a toggle iff there is a room; the selection is untouched |
| RoomPage.CastUpdate | src/app/_components/RoomPage.tsx:128-145 | as in the hook: only votes change, others kept in order, the user's vote replaced by one placeholder (room id from the cached room) or dropped |
| RoomPage.ResetUpdate | src/app/_components/RoomPage.tsx:178-184 | only the user's own votes are removed; other votes and `votesVisible` are unchanged |
| RoomPage.OnMutateCastVote | src/app/_components/RoomPage.tsx:114-152 | no room: nothing. Otherwise snapshot; the update is applied to both entries only when a snapshot and a session exist |
| RoomPage.OnCastError | src/app/_components/RoomPage.tsx:153-158 | restores the snapshot into both entries when the page has a room |
| RoomPage.CastVote | src/app/_components/RoomPage.tsx:113-163 | with no room nothing changes, and with a successful request and no session nothing changes either. With a room and a session, success leaves the optimistic cast in both entries. On failure with a room and a snapshot, both entries hold the snapshot |
| RoomPage.OnMutateResetVotes | src/app/_components/RoomPage.tsx:165-192 | same guards as the cast; the reset update on both entries, with no rollback |
| RoomPage.OnMutateToggle | src/app/_components/RoomPage.tsx:194-221 | no session needed: with a room both entries are toggled, with no rollback |
| RoomPage.PageScreen | src/app/_components/RoomPage.tsx:265-288 | spinner iff no room and no by-id error; the by-id error's message when there is one; the "Room not found" branch is unreachable |
| RoomPage.SlugFailureSpinsForever | src/app/_components/RoomPage.tsx:23-40 | for a hyphenated id the by-id lookup never runs and, once the latch is set, neither does the slug lookup. The by-id lookup then holds no data and no error, and the failed slug lookup holds no data, so the screen computed from the page's `room` (`CurrentRoom`) and `roomError` is the spinner |
| RoomPage.CorrectedScreen | src/app/hooks/useRoomData.tsx:37 | corrected choice: spinner exactly while the room-data hook reports loading; its (truthy) error is shown otherwise |
| RoomPage.CorrectedScreenReportsEitherFailure | src/app/hooks/useRoomData.tsx:26-32 | under the corrected choice, a failure of either lookup leaves the spinner for the error message |
| RoomPage.PageState.HandleVote | src/app/_components/RoomPage.tsx:223-232 | the same selection toggle and request as the hook's `handleVote` |
| RoomPage.PageState.HandleResetVotes | src/app/_components/RoomPage.tsx:234-238 | with a room, the selection becomes null and a reset is requested |
| RoomPage.PageState.OnVoteReset | src/app/_components/RoomPage.tsx:49-53 | the `vote-reset` notification sets the selection to null |
| RoomPage.PageState.OnQueryErrors | src/app/_components/RoomPage.tsx:107-111 | an error from either lookup sets the latch, and nothing clears it |
| RoomPage.PageState.SyncSelection | src/app/_components/RoomPage.tsx:246-253 | with a room, a session and no truthy selection, the selection becomes the value of the user's first vote, or null; otherwise it is kept |
| ResultsArea.FindVote | src/app/_components/ResultsArea.tsx:18 | absent iff no vote has the user's id; otherwise the vote at the first index with that id |
| ResultsArea.FindVoteIsFirstOwn | src/app/_components/ResultsArea.tsx:18 | `find` agrees with the first of the user's own entries under the filter |
| ResultsArea.ParticipantsWithVotes | src/app/_components/ResultsArea.tsx:15-19 | one row per participant, same order, same id and name, carrying the first vote cast under that id (the page's copy at RoomPage.tsx lines 255-263 is the same) |
| ResultsArea.Badge | src/app/_components/ResultsArea.tsx:46-50 | a badge iff there is a vote with a non-empty value. It reads the value when votes are visible and "?" otherwise (the page's copy at RoomPage.tsx lines 372-376 is the same) |
| ResultsArea.Badges | src/app/_components/ResultsArea.tsx:39-53 | one badge per participant, in order, for that participant's first vote |
| ResultsArea.HiddenVotesRevealNothing | src/app/_components/ResultsArea.tsx:46-50 | while votes are hidden, two rooms whose votes differ only in their (non-empty) values render identical badges |
| ResultsArea.ToggleLabel | src/app/_components/ResultsArea.tsx:26 | "Hide" iff votes are visible, "Reveal" iff not (also RoomPage.tsx line 352) |
| RoomData.OneLookupAtATime | src/app/hooks/useRoomData.tsx:9-22 | with no error exactly one lookup is enabled, by slug iff the id has a hyphen; with an error neither is. The two `enabled` options are `ByIdEnabled` (line 12) and `BySlugEnabled` (line 20) |
| RoomData.CurrentRoom | src/app/hooks/useRoomData.tsx:24 | the by-id result when defined, else the by-slug result |
| RoomData.LatchedError | src/app/hooks/useRoomData.tsx:26-32 | the by-id error's message if any, else the by-slug error's, else the stored message unchanged |
| RoomData.ErrorStopsLookups | src/app/hooks/useRoomData.tsx:12-37 | once a lookup fails with a message, both lookups are disabled and loading is false. The loading flag is `IsLoading` (line 37) |
| RoomData.RoomDataState.OnQueryErrors | src/app/hooks/useRoomData.tsx:26-32 | the effect stores the latched message |
| RoomData.RoomDataState.Returned | src/app/hooks/useRoomData.tsx:24-38 | the hook returns the by-id room when that lookup holds one, else the by-slug room (so a room iff either holds one); the stored message; and loading iff neither lookup holds a room and no truthy message is stored |
| ProfilePage.IsNameValid | src/app/_components/ProfilePage.tsx:47 | valid iff the trimmed name has at least 2 characters, each an ASCII letter or white space |
| ProfilePage.ValidNameIsFramedByLetters | src/app/_components/ProfilePage.tsx:47 | a valid trimmed name begins and ends with a letter |
| ProfilePage.NameValidityIgnoresPadding | src/app/_components/ProfilePage.tsx:47 | padding a name with white space never changes its verdict |
| ProfilePage.IndexOf | src/app/_components/ProfilePage.tsx:48 | the position of the first occurrence of a character, or none iff it does not occur |
| ProfilePage.IsEmailValid | src/app/_components/ProfilePage.tsx:48 | valid iff the trimmed e-mail is local@domain.tld, each of the three parts non-empty and free of white space and `@` |
| ProfilePage.MatchesIffShape | src/app/_components/ProfilePage.tsx:48 | the left-to-right check (first `@`, then a `.` strictly inside the rest) accepts exactly the regular expression's shape |
| ProfilePage.IsFormValid | src/app/_components/ProfilePage.tsx:52 | valid iff the name and the e-mail are both valid |
| ProfilePage.Submit | src/app/_components/ProfilePage.tsx:56-61 | an update is sent iff the form is valid, carrying the fields as typed (untrimmed) |
| Consistency.FindVoteOfOthers | src/app/hooks/useRoomActions.tsx:37-39 | dropping one user's votes does not change any other user's first vote |
| Consistency.OptimisticCastShowsOwnVote | src/app/hooks/useRoomActions.tsx:35-52 | after the optimistic cast, the user's first vote is the placeholder with the new value, or none |
| Consistency.OptimisticCastMatchesServer | src/server/api/routers/vote.ts:14-39 | if the client's vote list shows the server's table, it still does after the optimistic cast and the server's delete or upsert |
| Consistency.OptimisticResetMatchesServerVotes | src/server/api/routers/vote.ts:63-65 | the optimistic reset agrees with `deleteMany` on the votes. It disagrees on `votesVisible` exactly when the votes were visible, because the server leaves the flag alone |
| Consistency.OptimisticToggleMatchesServer | src/server/api/routers/room.ts:268-273 | the optimistic toggle predicts the server's new flag |
| Consistency.ResetShownToNonOwner | src/app/_components/ResultsArea.tsx:31 | the page's test is `ShowReset`: the first participant listed is the owner. Concrete case: with the owner listed first, a non-owner sees Reset although the server refuses their reset |
| Consistency.ShowResetForMatchesServer | src/server/api/routers/vote.ts:55-61 | the corrected Reset button, `ShowResetFor` (shown to the owner only), shows iff the server's owner check `MayReset` would let the viewer reset |

## Left out

- Pusher publishing is modelled as an appended event log. Subscriptions, channel binding, unsubscription and delivery failures are not modelled. Of the page's notification handlers, only the `vote-reset` one is modelled: the others only mark queries for refetching.
- React Query's `cancel`, `invalidate` and refetch machinery, and the asynchrony and interleaving of mutations, are not modelled. The mutation lifecycles (`Mutate`, `CastVote`) take the server's answer as a parameter.
- Each server procedure is modelled as one atomic step on the database. In the code, `create` counts the caller's rooms and then inserts in a separate query with no transaction (src/server/api/routers/room.ts:22-56), so two concurrent creates at 9 rooms can both pass the quota and leave the caller in 11. `leave`, `joinBySlug`, `delete` and `resetVotes` likewise read a row and then write in a second query, and a concurrent change between the two is not modelled.
- The cache is modelled as the two entries of the room on screen. Query keys are not modelled.
- `onMutate` reads the by-id entry under the mutation's `roomId` and writes it under `room.id`. The model treats these as one entry, since `handleVote` always passes `room.id`.
- Timestamps, the `temp-` id's `Date.now()`, slug generation and the database's id generator are parameters (`now`, `stamp`, `slug`, `freshId`). `RoomRouter.Create` requires the fresh id to be unused, as the database's generator guarantees.
- Participants are a set on the server. The client's participant order, and the user names, come from outside the model. `ResultsArea.ShowReset` therefore takes the client's order as given.
- The database schema file is not part of this model.
  - Foreign keys are assumed as the Vote table's relation implies: creating a vote for a missing room fails.
  - Deleting a row that is not there fails, as the database client does.
- Rendering, navigation, toasts, the clipboard, session plumbing, the profile loading effect and the `leave`/`delete`/`join` mutations' success handlers are not modelled.
- RoomRouter.Join: follows the code, not the documented intent. `join` finds the room by id whatever its `deletedAt`, so a soft-deleted room can be joined.
- RoomRouter.Create: a name of only white space passes the schema's `min(1)` and is stored as the empty string, as the code does.
- The room procedures publish no notifications, because the code publishes none (only the vote procedures do), although the notification handlers on the page suggest otherwise.
- VoteRouter.ResetVotes: leaves `votesVisible` unchanged, following the code. The optimistic reset in the hook hides the votes (see `Consistency.OptimisticResetMatchesServerVotes`).
- RoomRouter.Leave: models the code as written. The corrected decision `MemberLeavePlan` is stated and proved beside it.
- The server's vote rows are modelled as a map from `(userId, roomId)` to the value. The vote's own `id`, `createdAt` and `updatedAt`, which `castVote` returns, are not modelled; `VoteRouter.CastVote` returns the row as user, room and value only.
- RoomRouter.ListRoomsNewestFirst: the abstract clock strictly increases at each `create`, so no two rooms share a `createdAt`. `new Date()` can give two rooms the same millisecond, and then the database's order between them is unspecified; "strictly descending" holds only under the model's clock.
- The profile update procedure on the server is not part of this model. The form sends the untrimmed fields.
- RoomRouter.FindActiveBySlug: `findFirst` has no `orderBy`, so the database may return any matching row; the model picks the first in table order. Its ensures state the first-match choice; when slugs are unique among non-deleted rooms, as the slug generator makes likely, the two agree.
- RoomRouter.GetBySlug: picks the first visible row with that slug in table order, where the database may pick any matching row (same reason).
- RoomRouter.JoinBySlug: joins the row `FindActiveBySlug` picks, where the database may pick any matching row (same reason).

## Findings

| source | as written | input that shows it | evidently intended | confidence | as-written member | corrected member |
|---|---|---|---|---|---|---|
| src/server/api/routers/room.ts:135-143 | `leave` soft-deletes any room with one participant once the caller is not the owner, without checking that the caller is in the room | Alice's room `r1` with participants {alice}; Bob calls `leave("r1")` and the room is deleted | refuse a caller who is not a participant before the participant-count test | not executed; high | RoomRouter.OutsiderLeaveDeletesRoom | RoomRouter.MemberLeavePlan |
| src/app/_components/RoomPage.tsx:265-279 | the screen consults only the by-id lookup's error. A failed slug lookup sets the error latch, which disables both lookups, so the page shows the spinner for good | open the page with a hyphenated id (a slug) the caller cannot see; `getBySlug` fails with "Room not found" | show the error of either lookup, as `useRoomData` does | not executed; medium | RoomPage.SlugFailureSpinsForever | RoomPage.CorrectedScreen |
| src/app/_components/ResultsArea.tsx:31 | Reset is shown whenever the owner is the first participant listed, whoever is viewing | Alice's room listed as [alice, bob], viewed by Bob: Reset shows, and `resetVotes` then refuses him | show Reset to the owner only, matching the server's check | not executed; medium | Consistency.ResetShownToNonOwner | Consistency.ShowResetForMatchesServer |
