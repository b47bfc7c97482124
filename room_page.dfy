/** The room page component: its own (older) optimistic updates for the three mutations, the
    selection and error state it keeps, and which screen it shows. */
module RoomPage {
  import opened Wrappers
  import opened Text
  import opened Store
  import opened ClientRoom
  import RoomActions
  import ResultsArea
  import RoomData

  /** The page's optimistic cast: like the hook's, but the placeholder's id is built from a
      timestamp and its room id is taken from the cached room. */
  function CastUpdate(cached: Option<Room>, user: UserId, stamp: string, value: Option<string>, now: nat)
    : (r: Option<Room>)
    ensures cached.None? <==> r.None?
    ensures r.Some? ==> r.value.(votes := cached.value.votes) == cached.value
    ensures r.Some? ==> Select(r.value.votes, user, false) == Select(cached.value.votes, user, false)
    ensures r.Some? ==>
      Select(r.value.votes, user, true)
        == if value.Some? then [VoteEntry("temp-" + stamp, user, cached.value.id, value.value, now, now)] else []
  {
    match cached
    case None => None
    case Some(room) =>
      var entry := if value.Some? then Some(VoteEntry("temp-" + stamp, user, room.id, value.value, now, now)) else None;
      Some(room.(votes := ReplaceOwnVote(room.votes, user, entry)))
  }

  /** The page's optimistic reset: only the user's own votes go; everybody else's stay and the
      visibility flag is left alone. */
  function ResetUpdate(cached: Option<Room>, user: UserId): (r: Option<Room>)
    ensures cached.None? <==> r.None?
    ensures r.Some? ==> r.value.(votes := cached.value.votes) == cached.value
    ensures r.Some? ==> Select(r.value.votes, user, false) == Select(cached.value.votes, user, false)
    ensures r.Some? ==> Select(r.value.votes, user, true) == []
  {
    match cached
    case None => None
    case Some(room) => Some(room.(votes := ReplaceOwnVote(room.votes, user, None)))
  }

  /** `castVote`'s `onMutate`. Without a room nothing happens. Otherwise the snapshot is taken,
      and when it exists and a user is signed in both entries get the optimistic cast. */
  method OnMutateCastVote(cache: QueryCache, room: Option<Room>, session: Option<UserId>,
                          value: Option<string>, stamp: string, now: nat)
    returns (previous: Option<Room>)
    modifies cache
    ensures room.None? ==> previous.None? && cache.State() == old(cache.State())
    ensures room.Some? ==> previous == Previous(old(cache.State()))
    ensures room.Some? && previous.Some? && session.Some? ==>
      && cache.byId == CastUpdate(old(cache.byId), session.value, stamp, value, now)
      && cache.bySlug == CastUpdate(old(cache.bySlug), session.value, stamp, value, now)
    ensures previous.None? || session.None? ==> cache.State() == old(cache.State())
  {
    if room.None? {
      return None;
    }
    previous := Previous(cache.State());
    if previous.Some? && session.Some? {
      var user := session.value;
      var update := (o: Option<Room>) => CastUpdate(o, user, stamp, value, now);
      cache.SetById(update);
      cache.SetBySlug(update);
    }
  }

  /** `castVote`'s `onError`: restores the snapshot into both entries, provided the page still
      has a room. */
  method OnCastError(cache: QueryCache, previous: Option<Room>, room: Option<Room>)
    modifies cache
    ensures room.Some? ==> cache.State() == RolledBack(old(cache.State()), previous)
    ensures room.None? ==> cache.State() == old(cache.State())
  {
    if previous.Some? && room.Some? {
      cache.SetById(_ => previous);
      cache.SetBySlug(_ => previous);
    }
  }

  /** A cast as the page runs it, with the server's answer: on failure the snapshot comes back
      (`onSettled`'s refetch is not modelled). */
  method CastVote(cache: QueryCache, room: Option<Room>, session: Option<UserId>,
                  value: Option<string>, stamp: string, now: nat, serverFails: bool)
    modifies cache
    ensures room.Some? && session.Some? && !serverFails ==>
      && cache.byId == CastUpdate(old(cache.byId), session.value, stamp, value, now)
      && cache.bySlug == CastUpdate(old(cache.bySlug), session.value, stamp, value, now)
    ensures room.None? ==> cache.State() == old(cache.State())
    ensures !serverFails && session.None? ==> cache.State() == old(cache.State())
    ensures serverFails && room.Some? && Previous(old(cache.State())).Some? ==>
      cache.byId == Previous(old(cache.State())) && cache.bySlug == Previous(old(cache.State()))
    ensures serverFails ==> Previous(cache.State()) == Previous(old(cache.State()))
    ensures serverFails && old(cache.byId) == old(cache.bySlug) ==> cache.State() == old(cache.State())
  {
    ghost var before := cache.State();
    var previous := OnMutateCastVote(cache, room, session, value, stamp, now);
    if serverFails {
      OnCastError(cache, previous, room);
      if room.Some? && session.Some? {
        RollbackRestoresSnapshot(before, (o: Option<Room>) => CastUpdate(o, session.value, stamp, value, now));
      }
    }
  }

  /** `resetVotes`' `onMutate`, which has no `onError` to undo it. */
  method OnMutateResetVotes(cache: QueryCache, room: Option<Room>, session: Option<UserId>)
    returns (previous: Option<Room>)
    modifies cache
    ensures room.None? ==> previous.None? && cache.State() == old(cache.State())
    ensures room.Some? ==> previous == Previous(old(cache.State()))
    ensures room.Some? && previous.Some? && session.Some? ==>
      && cache.byId == ResetUpdate(old(cache.byId), session.value)
      && cache.bySlug == ResetUpdate(old(cache.bySlug), session.value)
    ensures previous.None? || session.None? ==> cache.State() == old(cache.State())
  {
    if room.None? {
      return None;
    }
    previous := Previous(cache.State());
    if previous.Some? && session.Some? {
      var user := session.value;
      var update := (o: Option<Room>) => ResetUpdate(o, user);
      cache.SetById(update);
      cache.SetBySlug(update);
    }
  }

  /** `toggleVotesVisible`'s `onMutate`, which asks for no session and has no `onError`. */
  method OnMutateToggle(cache: QueryCache, room: Option<Room>) returns (previous: Option<Room>)
    modifies cache
    ensures room.None? ==> previous.None? && cache.State() == old(cache.State())
    ensures room.Some? ==> previous == Previous(old(cache.State()))
    ensures room.Some? ==>
      && cache.byId == RoomActions.ToggleUpdate(old(cache.byId))
      && cache.bySlug == RoomActions.ToggleUpdate(old(cache.bySlug))
  {
    if room.None? {
      return None;
    }
    previous := Previous(cache.State());
    if previous.Some? {
      cache.SetById(RoomActions.ToggleUpdate);
      cache.SetBySlug(RoomActions.ToggleUpdate);
    }
  }

  /** What the page renders. */
  datatype Screen = Spinner | ErrorMessage(message: string) | RoomNotFound | RoomView(room: Room)

  /** The page's choice of screen, as written: it consults only the by-id lookup's error. The
      "Room not found" branch is never taken. */
  function PageScreen(room: Option<Room>, roomError: Option<string>): (s: Screen)
    ensures s != RoomNotFound
    ensures s == Spinner <==> room.None? && roomError.None?
    ensures roomError.Some? ==> s == ErrorMessage(roomError.value)
    ensures room.Some? && roomError.None? ==> s == RoomView(room.value)
  {
    if room.None? && roomError.None? then Spinner
    else if roomError.Some? then ErrorMessage(roomError.value)
    else if room.None? then RoomNotFound
    else RoomView(room.value)
  }

  /** A page opened by slug whose slug lookup fails shows the spinner for good: the by-id lookup
      never ran (the hyphen disables it), so it reports no error and no room, and the latched
      error disables the slug lookup as well, so nothing ever changes the screen. */
  lemma SlugFailureSpinsForever(id: string, hasError: bool, byIdData: Option<Room>,
                                 byIdError: Option<string>, bySlugData: Option<Room>)
    requires '-' in id && hasError
    // a query that is never enabled holds neither data nor an error
    requires RoomData.ByIdEnabled(id, false) || (byIdData.None? && byIdError.None?)
    // the slug lookup failed, so it holds no data
    requires bySlugData.None?
    ensures !RoomData.ByIdEnabled(id, false)
    ensures !RoomData.ByIdEnabled(id, hasError) && !RoomData.BySlugEnabled(id, hasError)
    ensures PageScreen(RoomData.CurrentRoom(byIdData, bySlugData), byIdError) == Spinner
  {
  }

  /** The evidently intended choice of screen: the error the room-data hook latches from either
      lookup decides, as in `useRoomData`'s `isLoading`. */
  function CorrectedScreen(room: Option<Room>, error: Option<string>): (s: Screen)
    ensures s != RoomNotFound
    ensures s == Spinner <==> RoomData.IsLoading(room, error)
    ensures Truthy(error) ==> s == ErrorMessage(error.value)
  {
    if RoomData.IsLoading(room, error) then Spinner
    else if Truthy(error) then ErrorMessage(error.value)
    else if room.None? then RoomNotFound
    else RoomView(room.value)
  }

  /** With the corrected choice, a failed lookup of either kind ends the spinner with its
      message. */
  lemma {:induction false} CorrectedScreenReportsEitherFailure(
    room: Option<Room>, error: Option<string>, roomError: Option<string>, slugError: Option<string>)
    requires Truthy(roomError) || (roomError.None? && Truthy(slugError))
    ensures var e := RoomData.LatchedError(error, roomError, slugError);
      CorrectedScreen(room, e) == ErrorMessage(e.value) && (roomError.None? ==> e == slugError)
  {
    var e := RoomData.LatchedError(error, roomError, slugError);
    assert Truthy(e);
  }

  /** The page's own state: the highlighted vote card and the error latch. */
  class PageState {
    var selectedValue: Option<string>
    var hasError: bool

    constructor ()
      ensures selectedValue.None? && !hasError
    {
      selectedValue := None;
      hasError := false;
    }

    /** `handleVote`: the same selection toggle as the room-actions hook. */
    method HandleVote(room: Option<Room>, value: string) returns (request: Option<RoomActions.Mutation>)
      modifies this
      ensures var c := RoomActions.HandleVote(room, old(selectedValue), value);
        selectedValue == c.selection && request == c.request
      ensures hasError == old(hasError)
    {
      var c := RoomActions.HandleVote(room, selectedValue, value);
      selectedValue := c.selection;
      request := c.request;
    }

    /** `handleResetVotes`: with a room, clears the selection and sends `resetVotes`. */
    method HandleResetVotes(room: Option<Room>) returns (request: Option<RoomActions.Mutation>)
      modifies this
      ensures room.Some? ==> selectedValue.None? && request == Some(RoomActions.ResetVotes(room.value.id))
      ensures room.None? ==> selectedValue == old(selectedValue) && request.None?
      ensures hasError == old(hasError)
    {
      if room.None? {
        return None;
      }
      selectedValue := None;
      request := Some(RoomActions.ResetVotes(room.value.id));
    }

    /** The `vote-reset` notification clears the selection. */
    method OnVoteReset()
      modifies this
      ensures selectedValue.None? && hasError == old(hasError)
    {
      selectedValue := None;
    }

    /** The effect over both lookups' errors: either one sets the latch, and nothing clears it. */
    method OnQueryErrors(roomError: Option<string>, slugError: Option<string>)
      modifies this
      ensures hasError == (old(hasError) || roomError.Some? || slugError.Some?)
      ensures selectedValue == old(selectedValue)
    {
      if roomError.Some? || slugError.Some? {
        hasError := true;
      }
    }

    /** The effect that seeds the selection from the room: when nothing (truthy) is selected,
        the card of the user's first vote in the room is selected, or none if they have not
        voted. */
    method SyncSelection(room: Option<Room>, session: Option<UserId>)
      modifies this
      ensures room.Some? && session.Some? && !Truthy(old(selectedValue)) ==>
        var vote := ResultsArea.FindVote(room.value.votes, session.value);
        selectedValue == if vote.Some? then Some(vote.value.value) else None
      ensures room.None? || session.None? || Truthy(old(selectedValue)) ==>
        selectedValue == old(selectedValue)
      ensures hasError == old(hasError)
    {
      if room.Some? && session.Some? && !Truthy(selectedValue) {
        var vote := ResultsArea.FindVote(room.value.votes, session.value);
        selectedValue := if vote.Some? then Some(vote.value.value) else None;
      }
    }
  }
}
