/** The `useRoomActions` hook: optimistic cache updates with rollback for `castVote`,
    `resetVotes` and `toggleVotesVisible`, and the vote-card selection handlers. */
module RoomActions {
  import opened Wrappers
  import opened Store
  import opened ClientRoom

  /** The mutations the hook sends, with their inputs. */
  datatype Mutation =
    | CastVote(roomId: RoomId, value: Option<string>)
    | ResetVotes(roomId: RoomId)
    | ToggleVotesVisible(roomId: RoomId)

  /** The placeholder vote the optimistic cast appends until the server's row arrives. */
  function TempVote(user: UserId, roomId: RoomId, value: string, now: nat): VoteEntry {
    VoteEntry("temp-" + user, user, roomId, value, now, now)
  }

  /** `updateData` of `castVote`: in a cached room, the user's votes are replaced by one
      placeholder with the new value, or dropped when the value is null. */
  function CastUpdate(cached: Option<Room>, user: UserId, roomId: RoomId, value: Option<string>, now: nat)
    : (r: Option<Room>)
    ensures cached.None? <==> r.None?
    ensures r.Some? ==> r.value.(votes := cached.value.votes) == cached.value
    ensures r.Some? ==> Select(r.value.votes, user, false) == Select(cached.value.votes, user, false)
    ensures r.Some? ==> Select(r.value.votes, user, true)
                        == if value.Some? then [TempVote(user, roomId, value.value, now)] else []
  {
    match cached
    case None => None
    case Some(room) =>
      var entry := if value.Some? then Some(TempVote(user, roomId, value.value, now)) else None;
      Some(room.(votes := ReplaceOwnVote(room.votes, user, entry)))
  }

  /** `updateData` of `resetVotes`: no votes, and votes hidden. */
  function ResetUpdate(cached: Option<Room>): (r: Option<Room>)
    ensures cached.None? <==> r.None?
    ensures r.Some? ==> r.value.votes == [] && !r.value.votesVisible
    ensures r.Some? ==> r.value.(votes := cached.value.votes, votesVisible := cached.value.votesVisible) == cached.value
  {
    match cached
    case None => None
    case Some(room) => Some(room.(votesVisible := false, votes := []))
  }

  /** `updateData` of `toggleVotesVisible`: the flag negated. */
  function ToggleUpdate(cached: Option<Room>): (r: Option<Room>)
    ensures cached.None? <==> r.None?
    ensures r.Some? ==> r.value.votesVisible == !cached.value.votesVisible
    ensures r.Some? ==> r.value.(votesVisible := cached.value.votesVisible) == cached.value
  {
    match cached
    case None => None
    case Some(room) => Some(room.(votesVisible := !room.votesVisible))
  }

  /** Toggling twice restores the cached room. */
  lemma ToggleUpdateTwice(cached: Option<Room>)
    ensures ToggleUpdate(ToggleUpdate(cached)) == cached
  {
  }

  /** The `updateData` of each mutation, for the signed-in user at time `now`. */
  function Transform(m: Mutation, user: UserId, now: nat, cached: Option<Room>): (r: Option<Room>)
    ensures cached.None? <==> r.None?
  {
    match m
    case CastVote(roomId, value) => CastUpdate(cached, user, roomId, value, now)
    case ResetVotes(_) => ResetUpdate(cached)
    case ToggleVotesVisible(_) => ToggleUpdate(cached)
  }

  /** `onMutate` of the three mutations. Without a room or a session nothing happens and no
      snapshot is returned. Otherwise the snapshot is taken and the same update is applied to
      both cache entries. */
  method OnMutate(cache: QueryCache, m: Mutation, room: Option<Room>, session: Option<UserId>, now: nat)
    returns (previous: Option<Room>)
    modifies cache
    ensures room.None? || session.None? ==> previous.None? && cache.State() == old(cache.State())
    ensures room.Some? && session.Some? ==>
      && previous == Previous(old(cache.State()))
      && cache.byId == Transform(m, session.value, now, old(cache.byId))
      && cache.bySlug == Transform(m, session.value, now, old(cache.bySlug))
  {
    if room.None? || session.None? {
      return None;
    }
    previous := Previous(cache.State());
    var user := session.value;
    var update := (o: Option<Room>) => Transform(m, user, now, o);
    // castVote writes only when the snapshot is present; the other two always write, and
    // their update leaves an absent entry absent
    if previous.Some? || !m.CastVote? {
      cache.SetById(update);
      cache.SetBySlug(update);
    }
  }

  /** `onError` of the three mutations: when a snapshot was taken, both entries are set back
      to it. */
  method OnError(cache: QueryCache, previous: Option<Room>)
    modifies cache
    ensures cache.State() == RolledBack(old(cache.State()), previous)
  {
    if previous.Some? {
      cache.SetById(_ => previous);
      cache.SetBySlug(_ => previous);
    }
  }

  /** A whole mutation as the hook runs it: `onMutate`, the request, and `onError` when the
      server rejects it (`onSettled`'s refetch is not modelled). */
  method Mutate(cache: QueryCache, m: Mutation, room: Option<Room>, session: Option<UserId>, now: nat,
                serverFails: bool)
    modifies cache
    ensures room.Some? && session.Some? && !serverFails ==>
      && cache.byId == Transform(m, session.value, now, old(cache.byId))
      && cache.bySlug == Transform(m, session.value, now, old(cache.bySlug))
    ensures room.None? || session.None? ==> cache.State() == old(cache.State())
    ensures serverFails && room.Some? && session.Some? ==>
      cache.State() == RolledBack(CacheState(Transform(m, session.value, now, old(cache.byId)),
                                             Transform(m, session.value, now, old(cache.bySlug))),
                                  Previous(old(cache.State())))
    ensures serverFails ==> Previous(cache.State()) == Previous(old(cache.State()))
    ensures serverFails && old(cache.byId) == old(cache.bySlug) ==> cache.State() == old(cache.State())
  {
    ghost var before := cache.State();
    var previous := OnMutate(cache, m, room, session, now);
    if serverFails {
      OnError(cache, previous);
      if room.Some? && session.Some? {
        RollbackRestoresSnapshot(before, (o: Option<Room>) => Transform(m, session.value, now, o));
      }
    }
  }

  /** What a click on a vote card or a button does: the new selection, and the mutation sent. */
  datatype Click = Click(selection: Option<string>, request: Option<Mutation>)

  /** `handleVote(value)`: with no room, nothing. Clicking the selected card deselects it and
      withdraws the vote (casts null); clicking another card selects it and casts its value. */
  function HandleVote(room: Option<Room>, selected: Option<string>, value: string): (c: Click)
    ensures room.None? ==> c == Click(selected, None)
    ensures room.Some? ==> c.request == Some(CastVote(room.value.id, c.selection))
    ensures room.Some? ==> (c.selection.None? <==> selected == Some(value))
    ensures c.selection.Some? && room.Some? ==> c.selection == Some(value)
  {
    if room.None? then Click(selected, None)
    else if selected == Some(value) then Click(None, Some(CastVote(room.value.id, None)))
    else Click(Some(value), Some(CastVote(room.value.id, Some(value))))
  }

  /** Clicking the same card twice ends with that card selected exactly when it was selected
      to begin with, and the second request always mirrors the final selection. */
  lemma HandleVoteTwice(room: Room, selected: Option<string>, value: string)
    ensures var first := HandleVote(Some(room), selected, value);
      var second := HandleVote(Some(room), first.selection, value);
      && (second.selection == Some(value) <==> selected == Some(value))
      && (second.selection.None? <==> selected != Some(value))
      && second.request == Some(CastVote(room.id, second.selection))
  {
  }

  /** `handleResetVotes`: with a room, clears the selection and sends `resetVotes`. */
  function HandleResetVotes(room: Option<Room>, selected: Option<string>): (c: Click)
    ensures room.None? ==> c == Click(selected, None)
    ensures room.Some? ==> c == Click(None, Some(ResetVotes(room.value.id)))
  {
    if room.None? then Click(selected, None) else Click(None, Some(ResetVotes(room.value.id)))
  }

  /** `handleToggleVotesVisible`: with a room, sends `toggleVotesVisible`; the selection stays. */
  function HandleToggleVotesVisible(room: Option<Room>, selected: Option<string>): (c: Click)
    ensures c.selection == selected
    ensures c.request.Some? <==> room.Some?
    ensures room.Some? ==> c.request == Some(ToggleVotesVisible(room.value.id))
  {
    if room.None? then Click(selected, None) else Click(selected, Some(ToggleVotesVisible(room.value.id)))
  }
}
