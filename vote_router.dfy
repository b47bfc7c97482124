/** The vote procedures: `castVote`, `resetVotes` and `getVotes`, over the Vote table keyed by
    `(userId, roomId)`. */
module VoteRouter {
  import opened Wrappers
  import opened Store

  const OnlyOwnerCanReset := "Only the room owner can reset votes"
  const VoteUpdate := "vote-update"
  const VoteReset := "vote-reset"

  /** `getVotes`: the votes whose room is `roomId`, whoever asks. */
  function GetVotes(votes: map<VoteKey, string>, roomId: RoomId): (r: set<VoteRow>)
    ensures forall v :: v in r <==>
      && v.roomId == roomId
      && VoteKey(v.userId, v.roomId) in votes
      && votes[VoteKey(v.userId, v.roomId)] == v.value
  {
    set k | k in votes && k.roomId == roomId :: VoteRow(k.userId, k.roomId, votes[k])
  }

  /** The Vote table's unique key leaves a user at most one vote in a room. */
  lemma GetVotesOnePerUser(votes: map<VoteKey, string>, roomId: RoomId, a: VoteRow, b: VoteRow)
    requires a in GetVotes(votes, roomId) && b in GetVotes(votes, roomId)
    requires a.userId == b.userId
    ensures a == b
  {
  }

  /** The Vote table after a successful `castVote` for `key`: the row is deleted when the value
      is null and created or overwritten otherwise; no other row changes. */
  function VotesAfterCast(votes: map<VoteKey, string>, key: VoteKey, value: Option<string>)
    : (m: map<VoteKey, string>)
    ensures value.None? ==> key !in m
    ensures value.Some? ==> key in m && m[key] == value.value
    ensures forall k :: k != key ==> (k in m <==> k in votes)
    ensures forall k :: k != key && k in m ==> m[k] == votes[k]
  {
    if value.None? then votes - {key} else votes[key := value.value]
  }

  /** Casting the same value twice leaves the table as casting it once. */
  lemma CastVoteIdempotent(votes: map<VoteKey, string>, key: VoteKey, value: Option<string>)
    ensures VotesAfterCast(VotesAfterCast(votes, key, value), key, value)
         == VotesAfterCast(votes, key, value)
  {
  }

  /** `castVote`. A null value deletes the caller's row for the room (deleting a row that is not
      there fails) and publishes nothing; any other value upserts the row (creating one needs the
      room to exist) and then publishes `vote-update` on the room's channel. Membership of the
      room is not checked. */
  method CastVote(db: Database, caller: UserId, roomId: RoomId, value: Option<string>)
    returns (r: Result<VoteRow, ApiError>)
    requires db.Valid()
    modifies db
    ensures db.Valid()
    ensures db.rooms == old(db.rooms) && db.clock == old(db.clock)
    ensures value.None? ==>
      var key := VoteKey(caller, roomId);
      && db.events == old(db.events)
      && (key in old(db.votes) ==>
            r == Success(VoteRow(caller, roomId, old(db.votes)[key]))
            && db.votes == VotesAfterCast(old(db.votes), key, value))
      && (key !in old(db.votes) ==> r == Failure(RecordNotFound) && db.votes == old(db.votes))
    ensures value.Some? ==>
      var key := VoteKey(caller, roomId);
      if key !in old(db.votes) && FindById(old(db.rooms), roomId).None? then
        r == Failure(ForeignKeyViolation) && db.votes == old(db.votes) && db.events == old(db.events)
      else
        && r == Success(VoteRow(caller, roomId, value.value))
        && db.votes == VotesAfterCast(old(db.votes), key, value)
        && db.events == old(db.events) + [Event(RoomChannel(roomId), VoteUpdate)]
  {
    var key := VoteKey(caller, roomId);
    if value.None? {
      if key !in db.votes {
        return Failure(RecordNotFound);
      }
      r := Success(VoteRow(caller, roomId, db.votes[key]));
      db.votes := db.votes - {key};
      return;
    }
    if key !in db.votes && FindById(db.rooms, roomId).None? {
      return Failure(ForeignKeyViolation);
    }
    db.votes := db.votes[key := value.value];
    db.events := db.events + [Event(RoomChannel(roomId), VoteUpdate)];
    r := Success(VoteRow(caller, roomId, value.value));
  }

  /** The owner check of `resetVotes`: the room exists and the caller owns it. */
  predicate MayReset(rooms: seq<RoomRow>, caller: UserId, roomId: RoomId) {
    var i := FindById(rooms, roomId);
    i.Some? && rooms[i.value].ownerId == caller
  }

  /** The keys of the votes cast in a room. */
  function RoomVoteKeys(votes: map<VoteKey, string>, roomId: RoomId): set<VoteKey> {
    set k | k in votes && k.roomId == roomId
  }

  /** The Vote table after `deleteMany({ where: { roomId } })`. */
  function VotesOutsideRoom(votes: map<VoteKey, string>, roomId: RoomId): (m: map<VoteKey, string>)
    ensures forall k :: k in m <==> k in votes && k.roomId != roomId
    ensures forall k :: k in m ==> m[k] == votes[k]
  {
    map k | k in votes && k.roomId != roomId :: votes[k]
  }

  /** `deleteMany` splits the table into the rows it keeps and the room's rows it removes, and
      reports as its count exactly the number of rows removed. */
  lemma ResetRemovesRoomVotes(votes: map<VoteKey, string>, roomId: RoomId)
    ensures votes.Keys == VotesOutsideRoom(votes, roomId).Keys + RoomVoteKeys(votes, roomId)
    ensures VotesOutsideRoom(votes, roomId).Keys !! RoomVoteKeys(votes, roomId)
    ensures |votes| == |VotesOutsideRoom(votes, roomId)| + |RoomVoteKeys(votes, roomId)|
  {
    var kept := VotesOutsideRoom(votes, roomId).Keys;
    var gone := RoomVoteKeys(votes, roomId);
    assert votes.Keys == kept + gone;
    assert kept !! gone;
  }

  /** `resetVotes`. Anyone but the owner of an existing room is refused; the owner deletes every
      vote of the room, in no other room, and `vote-reset` is published. The room's
      `votesVisible` is left as it was. */
  method ResetVotes(db: Database, caller: UserId, roomId: RoomId) returns (r: Result<nat, ApiError>)
    requires db.Valid()
    modifies db
    ensures db.Valid()
    ensures db.rooms == old(db.rooms) && db.clock == old(db.clock)
    ensures !MayReset(old(db.rooms), caller, roomId) ==>
      r == Failure(InternalError(OnlyOwnerCanReset)) && db.votes == old(db.votes) && db.events == old(db.events)
    ensures MayReset(old(db.rooms), caller, roomId) ==>
      && r == Success(|RoomVoteKeys(old(db.votes), roomId)|)
      && db.votes == VotesOutsideRoom(old(db.votes), roomId)
      && |db.votes| + r.value == |old(db.votes)|
      && db.events == old(db.events) + [Event(RoomChannel(roomId), VoteReset)]
  {
    if !MayReset(db.rooms, caller, roomId) {
      return Failure(InternalError(OnlyOwnerCanReset));
    }
    ResetRemovesRoomVotes(db.votes, roomId);
    r := Success(|RoomVoteKeys(db.votes, roomId)|);
    db.votes := VotesOutsideRoom(db.votes, roomId);
    db.events := db.events + [Event(RoomChannel(roomId), VoteReset)];
  }
}
