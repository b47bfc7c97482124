/** The room procedures: `create`, `join`, `joinBySlug`, `leave`, `getRoom`, `getBySlug`,
    `listRooms`, `toggleVotesVisible` and `delete`, over the Room table. */
module RoomRouter {
  import opened Wrappers
  import opened Text
  import opened Store
  import VoteRouter

  /** The number of rooms a user may be in before `create` refuses. */
  const MaxRooms := 10

  const TooManyRooms := "You are in too many rooms already!"
  const RoomNotFound := "Room not found"
  const OwnersMustDelete := "Owners must delete the room instead of leaving"
  const NotTheOwner := "You are not the owner of this room"

  /** `room.count` with the quota's filter: the rooms that are not deleted and have `user` as a
      participant. */
  function CountVisible(rooms: seq<RoomRow>, user: UserId): (n: nat)
    ensures n <= |rooms|
  {
    if rooms == [] then 0
    else CountVisible(rooms[..|rooms| - 1], user) + (if rooms[|rooms| - 1].VisibleTo(user) then 1 else 0)
  }

  /** Appending a row the user can see raises the user's count by one. */
  lemma {:induction false} CountVisibleAppend(rooms: seq<RoomRow>, row: RoomRow, user: UserId)
    ensures CountVisible(rooms + [row], user)
         == CountVisible(rooms, user) + (if row.VisibleTo(user) then 1 else 0)
  {
    assert (rooms + [row])[..|rooms|] == rooms;
  }

  /** `listRooms`: the rooms that are not deleted and have `user` as a participant, newest
      first. The table is kept in creation order, so newest first is the table read backwards. */
  function ListRooms(rooms: seq<RoomRow>, user: UserId): (r: seq<RoomRow>)
    ensures forall row :: row in r <==> row in rooms && row.VisibleTo(user)
    ensures |r| == CountVisible(rooms, user)
  {
    if rooms == [] then []
    else
      var last := rooms[|rooms| - 1];
      assert rooms == rooms[..|rooms| - 1] + [last];
      (if last.VisibleTo(user) then [last] else []) + ListRooms(rooms[..|rooms| - 1], user)
  }

  /** Strictly decreasing creation times. */
  ghost predicate NewestFirst(rs: seq<RoomRow>) {
    forall i, j :: 0 <= i < j < |rs| ==> rs[i].createdAt > rs[j].createdAt
  }

  /** `orderBy: { createdAt: "desc" }`: in a table kept in creation order, `listRooms` returns
      the rooms strictly newest first. */
  lemma {:induction false} ListRoomsNewestFirst(rooms: seq<RoomRow>, user: UserId)
    requires Chronological(rooms)
    ensures NewestFirst(ListRooms(rooms, user))
  {
    if rooms != [] {
      var init := rooms[..|rooms| - 1];
      var last := rooms[|rooms| - 1];
      ListRoomsNewestFirst(init, user);
      var tail := ListRooms(init, user);
      var r := ListRooms(rooms, user);
      assert r == (if last.VisibleTo(user) then [last] else []) + tail;
      forall j | 0 <= j < |tail|
        ensures tail[j].createdAt < last.createdAt
      {
        assert tail[j] in init;
        var k :| 0 <= k < |init| && init[k] == tail[j];
        assert rooms[k] == tail[j];
      }
      if last.VisibleTo(user) {
        forall i, j | 0 <= i < j < |r|
          ensures r[i].createdAt > r[j].createdAt
        {
          assert r[j] == tail[j - 1];
          if i > 0 {
            assert r[i] == tail[i - 1];
            assert NewestFirst(tail);
          }
        }
      }
    }
  }

  /** The position of the first room, in table order, that is not deleted and has that slug. */
  function FindActiveBySlug(rooms: seq<RoomRow>, slug: string): (r: Option<nat>)
    ensures r.Some? ==> r.value < |rooms| && rooms[r.value].slug == slug && rooms[r.value].Active()
    ensures r.Some? ==> forall k :: 0 <= k < r.value ==> !(rooms[k].slug == slug && rooms[k].Active())
    ensures r.None? ==> forall k :: 0 <= k < |rooms| ==> !(rooms[k].slug == slug && rooms[k].Active())
  {
    FindFrom(rooms, (row: RoomRow) => row.slug == slug && row.Active(), 0)
  }

  /** A room as `getRoom` and `getBySlug` return it, with its votes included. */
  datatype RoomDetail = RoomDetail(room: RoomRow, votes: set<VoteRow>)

  /** `getRoom`: the room with that id, provided it is not deleted and the caller is one of its
      participants; otherwise "Room not found". */
  function GetRoom(rooms: seq<RoomRow>, votes: map<VoteKey, string>, caller: UserId, roomId: RoomId)
    : (r: Result<RoomDetail, ApiError>)
    ensures r.Success? ==>
      && r.value.room in rooms
      && r.value.room.id == roomId
      && r.value.room.VisibleTo(caller)
      && r.value.votes == VoteRouter.GetVotes(votes, roomId)
    ensures r.Failure? ==>
      && r.error == BadRequest(RoomNotFound)
      && forall row :: row in rooms && row.id == roomId ==> !row.VisibleTo(caller)
  {
    match FindFrom(rooms, (row: RoomRow) => row.id == roomId && row.VisibleTo(caller), 0)
    case None => Failure(BadRequest(RoomNotFound))
    case Some(i) => Success(RoomDetail(rooms[i], VoteRouter.GetVotes(votes, roomId)))
  }

  /** `getBySlug`: the first room in table order with that slug that is not deleted and has the
      caller as a participant; otherwise "Room not found". */
  function GetBySlug(rooms: seq<RoomRow>, votes: map<VoteKey, string>, caller: UserId, slug: string)
    : (r: Result<RoomDetail, ApiError>)
    ensures r.Success? ==>
      exists i :: 0 <= i < |rooms| && r.value.room == rooms[i]
        && rooms[i].slug == slug && rooms[i].VisibleTo(caller)
        && (forall k :: 0 <= k < i ==> !(rooms[k].slug == slug && rooms[k].VisibleTo(caller)))
        && r.value.votes == VoteRouter.GetVotes(votes, rooms[i].id)
    ensures r.Failure? ==>
      && r.error == BadRequest(RoomNotFound)
      && forall row :: row in rooms && row.slug == slug ==> !row.VisibleTo(caller)
  {
    match FindFrom(rooms, (row: RoomRow) => row.slug == slug && row.VisibleTo(caller), 0)
    case None => Failure(BadRequest(RoomNotFound))
    case Some(i) => Success(RoomDetail(rooms[i], VoteRouter.GetVotes(votes, rooms[i].id)))
  }

  /** `create`. An empty name fails the input schema; a caller already in `MaxRooms` rooms is
      refused; otherwise a room is added with the caller as owner and only participant, the
      trimmed name and description, and `votesVisible` as given or false. */
  method Create(
    db: Database, caller: UserId, name: string, description: Option<string>,
    votesVisible: Option<bool>, slug: string, freshId: RoomId)
    returns (r: Result<RoomRow, ApiError>)
    requires db.Valid()
    requires FindById(db.rooms, freshId).None?
    modifies db
    ensures db.Valid()
    ensures db.votes == old(db.votes) && db.events == old(db.events)
    ensures r.Success? <==> name != "" && CountVisible(old(db.rooms), caller) < MaxRooms
    ensures name == "" ==> r == Failure(InvalidInput)
    ensures name != "" && CountVisible(old(db.rooms), caller) >= MaxRooms ==>
      r == Failure(BadRequest(TooManyRooms))
    ensures r.Failure? ==> db.rooms == old(db.rooms) && db.clock == old(db.clock)
    ensures r.Success? ==>
      && r.value == RoomRow(freshId, slug, Trim(name),
                            if description.Some? then Some(Trim(description.value)) else None,
                            caller, votesVisible.GetOr(false), {caller}, None, old(db.clock))
      && db.rooms == old(db.rooms) + [r.value]
      && db.clock == old(db.clock) + 1
      && CountVisible(db.rooms, caller) == CountVisible(old(db.rooms), caller) + 1 <= MaxRooms
  {
    if name == "" {
      return Failure(InvalidInput);
    }
    var roomCount := CountVisible(db.rooms, caller);
    if roomCount >= MaxRooms {
      return Failure(BadRequest(TooManyRooms));
    }
    var row := RoomRow(freshId, slug, Trim(name),
                       if description.Some? then Some(Trim(description.value)) else None,
                       caller, votesVisible.GetOr(false), {caller}, None, db.clock);
    AppendNewRoom(db.rooms, row, db.clock, caller);
    Insert(db, row);
    r := Success(row);
  }

  /** The insert itself: the row goes at the end of the table and the clock moves on. */
  method Insert(db: Database, row: RoomRow)
    requires TableInvariant(db.rooms + [row], db.clock + 1)
    modifies db
    ensures db.Valid()
    ensures db.rooms == old(db.rooms) + [row] && db.clock == old(db.clock) + 1
    ensures db.votes == old(db.votes) && db.events == old(db.events)
  {
    db.rooms, db.clock := db.rooms + [row], db.clock + 1;
  }

  /** Appending a new room for a caller under the quota keeps the table's invariants and raises
      the caller's count by one, to at most `MaxRooms`. */
  lemma AppendNewRoom(rooms: seq<RoomRow>, row: RoomRow, clock: nat, caller: UserId)
    requires TableInvariant(rooms, clock)
    requires FindById(rooms, row.id).None?
    requires row.createdAt == clock && row.ownerId == caller && row.participants == {caller}
    requires row.deletedAt.None? && CountVisible(rooms, caller) < MaxRooms
    ensures TableInvariant(rooms + [row], clock + 1)
    ensures CountVisible(rooms + [row], caller) == CountVisible(rooms, caller) + 1 <= MaxRooms
  {
    CountVisibleAppend(rooms, row, caller);
    AppendNewestKeepsInvariant(rooms, row, clock);
  }

  /** A row created now, with a fresh id and its owner among its participants, can be appended
      without breaking the table's invariants. */
  lemma AppendNewestKeepsInvariant(rooms: seq<RoomRow>, row: RoomRow, clock: nat)
    requires TableInvariant(rooms, clock)
    requires FindById(rooms, row.id).None?
    requires row.createdAt == clock && row.ownerId in row.participants
    ensures TableInvariant(rooms + [row], clock + 1)
  {
  }

  /** `join`: adds the caller to the participants of the room with that id, deleted or not;
      fails when there is no such row. */
  method Join(db: Database, caller: UserId, roomId: RoomId) returns (r: Result<RoomRow, ApiError>)
    requires db.Valid()
    modifies db
    ensures db.Valid()
    ensures db.votes == old(db.votes) && db.events == old(db.events) && db.clock == old(db.clock)
    ensures FindById(old(db.rooms), roomId).None? ==>
      r == Failure(RecordNotFound) && db.rooms == old(db.rooms)
    ensures FindById(old(db.rooms), roomId).Some? ==>
      var i := FindById(old(db.rooms), roomId).value;
      var row := old(db.rooms)[i];
      && db.rooms == old(db.rooms)[i := row.(participants := row.participants + {caller})]
      && r == Success(db.rooms[i])
  {
    var found := FindById(db.rooms, roomId);
    if found.None? {
      return Failure(RecordNotFound);
    }
    var i := found.value;
    var row := db.rooms[i];
    db.rooms := db.rooms[i := row.(participants := row.participants + {caller})];
    r := Success(db.rooms[i]);
  }

  /** `joinBySlug`: adds the caller to the participants of the first room with that slug that
      is not deleted; "Room not found" when there is none. */
  method JoinBySlug(db: Database, caller: UserId, slug: string) returns (r: Result<RoomRow, ApiError>)
    requires db.Valid()
    modifies db
    ensures db.Valid()
    ensures db.votes == old(db.votes) && db.events == old(db.events) && db.clock == old(db.clock)
    ensures FindActiveBySlug(old(db.rooms), slug).None? ==>
      r == Failure(BadRequest(RoomNotFound)) && db.rooms == old(db.rooms)
    ensures FindActiveBySlug(old(db.rooms), slug).Some? ==>
      var i := FindActiveBySlug(old(db.rooms), slug).value;
      var row := old(db.rooms)[i];
      && db.rooms == old(db.rooms)[i := row.(participants := row.participants + {caller})]
      && r == Success(db.rooms[i])
  {
    var found := FindActiveBySlug(db.rooms, slug);
    if found.None? {
      return Failure(BadRequest(RoomNotFound));
    }
    var i := found.value;
    var row := db.rooms[i];
    db.rooms := db.rooms[i := row.(participants := row.participants + {caller})];
    r := Success(db.rooms[i]);
  }

  /** Joining a room one is already in changes nothing. */
  lemma JoinAgainIsNoOp(row: RoomRow, caller: UserId)
    requires caller in row.participants
    ensures row.(participants := row.participants + {caller}) == row
  {
  }

  /** What `leave` does to a room it found, in the order the code checks. */
  datatype LeaveStep = OwnerRefused | SoftDelete | Disconnect

  /** The decision `leave` makes on a room that exists: the owner is refused; a room with a
      single participant is soft-deleted; otherwise the caller is disconnected. */
  function LeavePlan(row: RoomRow, caller: UserId): LeaveStep {
    if row.ownerId == caller then OwnerRefused
    else if |row.participants| == 1 then SoftDelete
    else Disconnect
  }

  /** The owner is always a participant, and can never leave; so a room with a single
      participant has only its owner left, and `leave` soft-deletes it exactly when someone who
      is NOT a participant calls it. */
  lemma {:induction false} LeaveSoftDeletesOnlyForOutsiders(row: RoomRow, caller: UserId)
    requires row.ownerId in row.participants
    requires LeavePlan(row, caller) == SoftDelete
    ensures row.participants == {row.ownerId}
    ensures caller !in row.participants
  {
    assert |row.participants - {row.ownerId}| == 0;
    assert row.participants - {row.ownerId} == {};
  }

  /** A concrete case: Bob, who is not in Alice's room, soft-deletes it by leaving it. */
  lemma OutsiderLeaveDeletesRoom()
    ensures var row := RoomRow("r1", "brave-azure-wolf", "Sprint 1", None, "alice", false,
                               {"alice"}, None, 0);
      "bob" !in row.participants && LeavePlan(row, "bob") == SoftDelete
  {
    var row := RoomRow("r1", "brave-azure-wolf", "Sprint 1", None, "alice", false, {"alice"}, None, 0);
    assert |row.participants| == 1;
  }

  /** The decision `leave` evidently means to make: after the owner check, a caller who is not
      a participant is refused (None, reported as "Room not found") instead of reaching the
      participant-count test. */
  function MemberLeavePlan(row: RoomRow, caller: UserId): (r: Option<LeaveStep>)
    ensures r.None? <==> caller != row.ownerId && caller !in row.participants
    ensures r.Some? ==> r.value == LeavePlan(row, caller)
    ensures r.Some? && r.value != OwnerRefused ==> caller in row.participants
  {
    if row.ownerId == caller then Some(OwnerRefused)
    else if caller !in row.participants then None
    else Some(LeavePlan(row, caller))
  }

  /** With the guard, no participant's `leave` ever soft-deletes a room whose owner is in it. */
  lemma MemberLeaveNeverSoftDeletes(row: RoomRow, caller: UserId)
    requires row.ownerId in row.participants
    ensures MemberLeavePlan(row, caller) != Some(SoftDelete)
  {
    if MemberLeavePlan(row, caller) == Some(SoftDelete) {
      LeaveSoftDeletesOnlyForOutsiders(row, caller);
    }
  }

  /** `leave`: "Room not found" when no row has that id (deleted rows included); the owner is
      refused whatever the participant count; a room with one participant gets `deletedAt` and
      keeps its participants; otherwise only the caller is removed from the participants. */
  method Leave(db: Database, caller: UserId, roomId: RoomId) returns (r: Result<RoomRow, ApiError>)
    requires db.Valid()
    modifies db
    ensures db.Valid()
    ensures db.votes == old(db.votes) && db.events == old(db.events)
    ensures FindById(old(db.rooms), roomId).None? ==>
      r == Failure(BadRequest(RoomNotFound)) && db.rooms == old(db.rooms) && db.clock == old(db.clock)
    ensures FindById(old(db.rooms), roomId).Some? ==>
      var i := FindById(old(db.rooms), roomId).value;
      var row := old(db.rooms)[i];
      match LeavePlan(row, caller)
      case OwnerRefused =>
        r == Failure(Forbidden(OwnersMustDelete)) && db.rooms == old(db.rooms) && db.clock == old(db.clock)
      case SoftDelete =>
        && db.rooms == old(db.rooms)[i := row.(deletedAt := Some(old(db.clock)))]
        && db.clock == old(db.clock) + 1
        && r == Success(db.rooms[i])
      case Disconnect =>
        && db.rooms == old(db.rooms)[i := row.(participants := row.participants - {caller})]
        && db.clock == old(db.clock)
        && r == Success(db.rooms[i])
  {
    var found := FindById(db.rooms, roomId);
    if found.None? {
      return Failure(BadRequest(RoomNotFound));
    }
    var i := found.value;
    var row := db.rooms[i];
    if row.ownerId == caller {
      return Failure(Forbidden(OwnersMustDelete));
    }
    if |row.participants| == 1 {
      db.rooms := db.rooms[i := row.(deletedAt := Some(db.clock))];
      db.clock := db.clock + 1;
      return Success(db.rooms[i]);
    }
    db.rooms := db.rooms[i := row.(participants := row.participants - {caller})];
    r := Success(db.rooms[i]);
  }

  /** `toggleVotesVisible`: "Room not found" when no row has that id; otherwise the room's
      `votesVisible` is negated and nothing else changes. No ownership or membership check. */
  method ToggleVotesVisible(db: Database, caller: UserId, roomId: RoomId)
    returns (r: Result<RoomRow, ApiError>)
    requires db.Valid()
    modifies db
    ensures db.Valid()
    ensures db.votes == old(db.votes) && db.events == old(db.events) && db.clock == old(db.clock)
    ensures FindById(old(db.rooms), roomId).None? ==>
      r == Failure(BadRequest(RoomNotFound)) && db.rooms == old(db.rooms)
    ensures FindById(old(db.rooms), roomId).Some? ==>
      var i := FindById(old(db.rooms), roomId).value;
      && db.rooms == old(db.rooms)[i := Toggled(old(db.rooms)[i])]
      && r == Success(db.rooms[i])
  {
    var found := FindById(db.rooms, roomId);
    if found.None? {
      return Failure(BadRequest(RoomNotFound));
    }
    var i := found.value;
    db.rooms := db.rooms[i := Toggled(db.rooms[i])];
    r := Success(db.rooms[i]);
  }

  /** The row `toggleVotesVisible` writes: the flag negated, every other column kept. */
  function Toggled(row: RoomRow): (t: RoomRow)
    ensures t.votesVisible == !row.votesVisible
    ensures t.(votesVisible := row.votesVisible) == row
  {
    row.(votesVisible := !row.votesVisible)
  }

  /** Two toggles restore the room. */
  lemma ToggleTwiceRestores(row: RoomRow)
    ensures Toggled(Toggled(row)) == row
  {
  }

  /** `delete`: "Room not found" when no row has that id; anyone but the owner is refused;
      the owner's call stamps `deletedAt` (again, if already deleted) and changes nothing else. */
  method Delete(db: Database, caller: UserId, roomId: RoomId) returns (r: Result<RoomRow, ApiError>)
    requires db.Valid()
    modifies db
    ensures db.Valid()
    ensures db.votes == old(db.votes) && db.events == old(db.events)
    ensures FindById(old(db.rooms), roomId).None? ==>
      r == Failure(BadRequest(RoomNotFound)) && db.rooms == old(db.rooms) && db.clock == old(db.clock)
    ensures FindById(old(db.rooms), roomId).Some? ==>
      var i := FindById(old(db.rooms), roomId).value;
      var row := old(db.rooms)[i];
      if row.ownerId != caller then
        r == Failure(Forbidden(NotTheOwner)) && db.rooms == old(db.rooms) && db.clock == old(db.clock)
      else
        && db.rooms == old(db.rooms)[i := row.(deletedAt := Some(old(db.clock)))]
        && db.clock == old(db.clock) + 1
        && r == Success(db.rooms[i])
  {
    var found := FindById(db.rooms, roomId);
    if found.None? {
      return Failure(BadRequest(RoomNotFound));
    }
    var i := found.value;
    var row := db.rooms[i];
    if row.ownerId != caller {
      return Failure(Forbidden(NotTheOwner));
    }
    db.rooms := db.rooms[i := row.(deletedAt := Some(db.clock))];
    db.clock := db.clock + 1;
    r := Success(db.rooms[i]);
  }
}
