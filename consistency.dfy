/** How the client's optimistic guesses line up with what the server then does to its tables,
    and whether the Reset button is offered to the callers the server lets reset. */
module Consistency {
  import opened Wrappers
  import opened Store
  import opened ClientRoom
  import opened ResultsArea
  import VoteRouter
  import RoomRouter
  import RoomActions

  /** The room's vote list shows the server's Vote table for `roomId`: a user has an entry
      exactly when they have a row, and the first of their entries carries the row's value. */
  ghost predicate Mirrors(votes: seq<VoteEntry>, table: map<VoteKey, string>, roomId: RoomId) {
    forall u :: (FindVote(votes, u).Some? <==> VoteKey(u, roomId) in table)
      && (FindVote(votes, u).Some? ==> FindVote(votes, u).value.value == table[VoteKey(u, roomId)])
  }

  /** Dropping one user's entries does not change what `find` returns for anybody else. */
  lemma {:induction false} FindVoteOfOthers(votes: seq<VoteEntry>, user: UserId, other: UserId)
    requires other != user
    ensures FindVote(Select(votes, user, false), other) == FindVote(votes, other)
  {
    if votes != [] {
      var rest := Select(votes[1..], user, false);
      FindVoteOfOthers(votes[1..], user, other);
      if votes[0].userId == user {
        assert Select(votes, user, false) == rest;
      } else {
        var kept := Select(votes, user, false);
        assert kept == [votes[0]] + rest;
        assert kept[0] == votes[0] && kept[1..] == rest;
      }
    }
  }

  /** After the hook's optimistic cast, the results list shows the user's new vote, or none
      when the vote was withdrawn. */
  lemma {:induction false} OptimisticCastShowsOwnVote(room: Room, user: UserId, roomId: RoomId,
                                                      value: Option<string>, now: nat)
    ensures var after := RoomActions.CastUpdate(Some(room), user, roomId, value, now).value;
      FindVote(after.votes, user)
        == if value.Some? then Some(RoomActions.TempVote(user, roomId, value.value, now)) else None
  {
    FindVoteIsFirstOwn(RoomActions.CastUpdate(Some(room), user, roomId, value, now).value.votes, user);
  }

  /** The hook's optimistic cast predicts the server: from a list that shows the Vote table,
      it produces a list that shows the table after `castVote`'s delete or upsert. */
  lemma {:induction false} OptimisticCastMatchesServer(room: Room, table: map<VoteKey, string>,
                                                       user: UserId, roomId: RoomId,
                                                       value: Option<string>, now: nat)
    requires Mirrors(room.votes, table, roomId)
    ensures Mirrors(RoomActions.CastUpdate(Some(room), user, roomId, value, now).value.votes,
                    VoteRouter.VotesAfterCast(table, VoteKey(user, roomId), value), roomId)
  {
    var after := RoomActions.CastUpdate(Some(room), user, roomId, value, now).value.votes;
    var table' := VoteRouter.VotesAfterCast(table, VoteKey(user, roomId), value);
    forall u
      ensures (FindVote(after, u).Some? <==> VoteKey(u, roomId) in table')
      ensures FindVote(after, u).Some? ==> FindVote(after, u).value.value == table'[VoteKey(u, roomId)]
    {
      if u == user {
        OptimisticCastShowsOwnVote(room, user, roomId, value, now);
      } else {
        FindVoteOfOthers(after, user, u);
        FindVoteOfOthers(room.votes, user, u);
        assert FindVote(room.votes, u).Some? <==> VoteKey(u, roomId) in table;
      }
    }
  }

  /** The hook's optimistic reset predicts the server's votes (none left in the room), but
      not its visibility flag: the server leaves `votesVisible` alone, so the guess is wrong
      exactly when the votes were visible. */
  lemma OptimisticResetMatchesServerVotes(room: Room, table: map<VoteKey, string>, row: RoomRow)
    requires room.id == row.id && room.votesVisible == row.votesVisible
    ensures Mirrors(RoomActions.ResetUpdate(Some(room)).value.votes,
                    VoteRouter.VotesOutsideRoom(table, room.id), room.id)
    ensures RoomActions.ResetUpdate(Some(room)).value.votesVisible == row.votesVisible <==> !row.votesVisible
  {
  }

  /** The optimistic toggle predicts the server's flip. */
  lemma OptimisticToggleMatchesServer(room: Room, row: RoomRow)
    requires room.votesVisible == row.votesVisible
    ensures RoomActions.ToggleUpdate(Some(room)).value.votesVisible == RoomRouter.Toggled(row).votesVisible
  {
  }

  /** The client room shows the server's row. */
  ghost predicate Shows(room: Room, row: RoomRow) {
    && room.id == row.id
    && room.ownerId == row.ownerId
    && room.votesVisible == row.votesVisible
  }

  /** The Reset button as written is offered to a participant whose reset the server refuses:
      in Alice's room, listed with Alice first, Bob sees it too. */
  lemma ResetShownToNonOwner()
    ensures var row := RoomRow("r1", "brave-azure-wolf", "Sprint 1", None, "alice", false,
                               {"alice", "bob"}, None, 0);
      var room := Room("r1", "brave-azure-wolf", "Sprint 1", None, "alice", false, None, 0,
                       [Participant("alice", None), Participant("bob", None)], []);
      && Shows(room, row)
      && ShowReset(room)
      && !VoteRouter.MayReset([row], "bob", "r1")
  {
  }

  /** The corrected Reset button is offered to exactly the viewers the server lets reset. */
  lemma ShowResetForMatchesServer(rows: seq<RoomRow>, room: Room, viewer: UserId)
    requires FindById(rows, room.id).Some? && Shows(room, rows[FindById(rows, room.id).value])
    ensures ShowResetFor(room, viewer) <==> VoteRouter.MayReset(rows, viewer, room.id)
  {
  }
}
