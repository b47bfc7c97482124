/** The persistence layer the routers talk to (`ctx.db`), as an in-memory store: a Room table,
    a Vote table keyed by its composite unique key `(userId, roomId)`, the log of notifications
    published to the pub/sub service, and an abstract clock for `createdAt`/`deletedAt`. */
module Store {
  import opened Wrappers

  type UserId = string
  type RoomId = string

  /** A row of the Room table, with its many-to-many participant relation folded in. */
  datatype RoomRow = RoomRow(
    id: RoomId,
    slug: string,
    name: string,
    description: Option<string>,
    ownerId: UserId,
    votesVisible: bool,
    participants: set<UserId>,
    deletedAt: Option<nat>,
    createdAt: nat)
  {
    /** Not soft-deleted: `deletedAt: null`. */
    predicate Active() {
      deletedAt.None?
    }

    /** The filter the read procedures and the room quota use:
        `deletedAt: null, participants: { some: { id: user } }`. */
    predicate VisibleTo(user: UserId) {
      Active() && user in participants
    }
  }

  /** The unique key `userId_roomId` of the Vote table. */
  datatype VoteKey = VoteKey(userId: UserId, roomId: RoomId)

  /** A Vote row as the procedures return it. */
  datatype VoteRow = VoteRow(userId: UserId, roomId: RoomId, value: string)

  /** A notification published with `pusherServer.trigger(channel, name, {})`. */
  datatype Event = Event(channel: string, name: string)

  /** The channel of a room: `room-${roomId}`. */
  function RoomChannel(roomId: RoomId): string {
    "room-" + roomId
  }

  /** What a procedure throws. */
  datatype ApiError =
    | BadRequest(message: string)       // TRPCError with code BAD_REQUEST
    | Forbidden(message: string)        // TRPCError with code FORBIDDEN
    | InternalError(message: string)    // a plain Error, reported as INTERNAL_SERVER_ERROR
    | InvalidInput                      // the zod input schema rejected the input
    | RecordNotFound                    // the database found no row to update or delete
    | ForeignKeyViolation               // the database refused a row that references no room

  /** The position of the first row satisfying `p`, scanning from `from`. */
  function FindFrom(rooms: seq<RoomRow>, p: RoomRow -> bool, from: nat): (r: Option<nat>)
    requires from <= |rooms|
    decreases |rooms| - from
    ensures r.Some? ==> from <= r.value < |rooms| && p(rooms[r.value])
    ensures r.Some? ==> forall k :: from <= k < r.value ==> !p(rooms[k])
    ensures r.None? ==> forall k :: from <= k < |rooms| ==> !p(rooms[k])
  {
    if from == |rooms| then None
    else if p(rooms[from]) then Some(from)
    else FindFrom(rooms, p, from + 1)
  }

  /** `findUnique({ where: { id } })`: the position of the row with that id, deleted or not. */
  function FindById(rooms: seq<RoomRow>, id: RoomId): (r: Option<nat>)
    ensures r.Some? ==> r.value < |rooms| && rooms[r.value].id == id
    ensures r.None? ==> forall k :: 0 <= k < |rooms| ==> rooms[k].id != id
  {
    FindFrom(rooms, (row: RoomRow) => row.id == id, 0)
  }

  /** No two rows share an id (the primary key). */
  ghost predicate DistinctIds(rooms: seq<RoomRow>) {
    forall i, j :: 0 <= i < j < |rooms| ==> rooms[i].id != rooms[j].id
  }

  /** Rows appear in the order they were created, and no two were created at the same instant. */
  ghost predicate Chronological(rooms: seq<RoomRow>) {
    forall i, j :: 0 <= i < j < |rooms| ==> rooms[i].createdAt < rooms[j].createdAt
  }

  /** Every room's owner is one of its participants. */
  ghost predicate OwnersParticipate(rooms: seq<RoomRow>) {
    forall i :: 0 <= i < |rooms| ==> rooms[i].ownerId in rooms[i].participants
  }

  /** The table's invariants, and every row created before the clock's current reading. */
  ghost predicate TableInvariant(rooms: seq<RoomRow>, clock: nat) {
    && DistinctIds(rooms)
    && Chronological(rooms)
    && OwnersParticipate(rooms)
    && (forall i :: 0 <= i < |rooms| ==> rooms[i].createdAt < clock)
  }

  class Database {
    var rooms: seq<RoomRow>
    var votes: map<VoteKey, string>
    var events: seq<Event>
    var clock: nat

    ghost predicate Valid()
      reads this
    {
      TableInvariant(rooms, clock)
    }

    /** An empty database. */
    constructor ()
      ensures Valid()
      ensures rooms == [] && votes == map[] && events == [] && clock == 0
    {
      rooms, votes, events, clock := [], map[], [], 0;
    }
  }
}
