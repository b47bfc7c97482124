/** The `useRoomData` hook: which of the two room lookups runs, the latched error message, and
    the room and loading flag it derives from them. */
module RoomData {
  import opened Wrappers
  import opened Text
  import opened ClientRoom

  /** The by-id lookup runs for an id without a hyphen, while nothing blocks it. */
  predicate ByIdEnabled(id: string, blocked: bool) {
    '-' !in id && !blocked
  }

  /** The by-slug lookup runs for an id with a hyphen (slugs are hyphenated), while nothing
      blocks it. */
  predicate BySlugEnabled(id: string, blocked: bool) {
    '-' in id && !blocked
  }

  /** Unblocked, exactly one lookup runs, chosen by the hyphen; blocked, none does. */
  lemma OneLookupAtATime(id: string, blocked: bool)
    ensures !blocked ==> (ByIdEnabled(id, blocked) <==> !BySlugEnabled(id, blocked))
    ensures !blocked ==> (BySlugEnabled(id, blocked) <==> '-' in id)
    ensures blocked ==> !ByIdEnabled(id, blocked) && !BySlugEnabled(id, blocked)
  {
  }

  /** `roomById ?? roomBySlug`. */
  function CurrentRoom(byId: Option<Room>, bySlug: Option<Room>): (r: Option<Room>)
    ensures byId.Some? ==> r == byId
    ensures byId.None? ==> r == bySlug
  {
    if byId.Some? then byId else bySlug
  }

  /** The message the error effect stores: the by-id error's if there is one, else the by-slug
      error's; with neither, the stored message stays as it was. */
  function LatchedError(error: Option<string>, roomError: Option<string>, slugError: Option<string>)
    : (r: Option<string>)
    ensures roomError.Some? ==> r == roomError
    ensures roomError.None? && slugError.Some? ==> r == slugError
    ensures roomError.None? && slugError.None? ==> r == error
  {
    if roomError.Some? then roomError else if slugError.Some? then slugError else error
  }

  /** `isLoading`: no room yet and no (truthy) error. */
  predicate IsLoading(room: Option<Room>, error: Option<string>) {
    room.None? && !Truthy(error)
  }

  /** Once a lookup has failed with a message, both lookups stop and the hook no longer reports
      loading. */
  lemma {:induction false} ErrorStopsLookups(id: string, error: Option<string>, room: Option<Room>,
                                             roomError: Option<string>, slugError: Option<string>)
    requires Truthy(roomError) || (roomError.None? && Truthy(slugError))
    ensures var e := LatchedError(error, roomError, slugError);
      !ByIdEnabled(id, Truthy(e)) && !BySlugEnabled(id, Truthy(e)) && !IsLoading(room, e)
  {
    var e := LatchedError(error, roomError, slugError);
    assert Truthy(e);
  }

  /** What `useRoomData` returns. */
  datatype HookResult = HookResult(room: Option<Room>, error: Option<string>, isLoading: bool)

  /** The hook's one piece of state. */
  class RoomDataState {
    var error: Option<string>

    constructor ()
      ensures error.None?
    {
      error := None;
    }

    /** The effect over `[roomError, roomBySlugError]`. */
    method OnQueryErrors(roomError: Option<string>, slugError: Option<string>)
      modifies this
      ensures error == LatchedError(old(error), roomError, slugError)
    {
      if roomError.Some? {
        error := roomError;
      } else if slugError.Some? {
        error := slugError;
      }
    }

    /** The hook's return value, given what the two lookups currently hold: the room (by id,
        else by slug), the stored message, and the loading flag. */
    function Returned(byId: Option<Room>, bySlug: Option<Room>): (r: HookResult)
      reads this
      ensures r.room.Some? <==> byId.Some? || bySlug.Some?
      ensures byId.Some? ==> r.room == byId
      ensures byId.None? ==> r.room == bySlug
      ensures r.error == error
      ensures r.isLoading <==> byId.None? && bySlug.None? && !Truthy(error)
    {
      var room := CurrentRoom(byId, bySlug);
      HookResult(room, error, IsLoading(room, error))
    }
  }
}
