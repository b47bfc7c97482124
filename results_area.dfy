/** The results list under the vote cards: each participant with their vote, the masked vote
    badge, the Reveal/Hide label and the condition for showing Reset. */
module ResultsArea {
  import opened Wrappers
  import opened Store
  import opened ClientRoom

  /** The first index of `votes` whose vote was cast by `user`. */
  ghost predicate FirstVoteAt(votes: seq<VoteEntry>, user: UserId, i: int) {
    && 0 <= i < |votes|
    && votes[i].userId == user
    && forall j :: 0 <= j < i ==> votes[j].userId != user
  }

  /** `votes.find(v => v.userId === user)`. */
  function FindVote(votes: seq<VoteEntry>, user: UserId): (r: Option<VoteEntry>)
    ensures r.None? <==> forall v :: v in votes ==> v.userId != user
    ensures r.Some? ==> exists i :: FirstVoteAt(votes, user, i) && votes[i] == r.value
  {
    if votes == [] then None
    else if votes[0].userId == user then
      assert FirstVoteAt(votes, user, 0);
      Some(votes[0])
    else
      var r := FindVote(votes[1..], user);
      if r.Some? then
        assert exists i :: FirstVoteAt(votes, user, i) && votes[i] == r.value by {
          var i :| FirstVoteAt(votes[1..], user, i) && votes[1..][i] == r.value;
          assert FirstVoteAt(votes, user, i + 1);
        }
        r
      else
        assert forall v :: v in votes ==> v == votes[0] || v in votes[1..];
        r
  }

  /** The vote `find` returns is the first of the user's own entries in the list. */
  lemma {:induction false} FindVoteIsFirstOwn(votes: seq<VoteEntry>, user: UserId)
    ensures FindVote(votes, user).None? <==> Select(votes, user, true) == []
    ensures FindVote(votes, user).Some? ==> FindVote(votes, user).value == Select(votes, user, true)[0]
  {
    if votes != [] && votes[0].userId != user {
      FindVoteIsFirstOwn(votes[1..], user);
    }
  }

  /** One row of the results list. */
  datatype ParticipantVote = ParticipantVote(id: UserId, name: Option<string>, vote: Option<VoteEntry>)

  /** `participantsWithVotes`: one row per participant, in participant order, with the
      participant's id and name and the first vote cast under that id. */
  function ParticipantsWithVotes(room: Room): (r: seq<ParticipantVote>)
    ensures |r| == |room.participants|
    ensures forall i :: 0 <= i < |r| ==>
      && r[i].id == room.participants[i].id
      && r[i].name == room.participants[i].name
      && r[i].vote == FindVote(room.votes, room.participants[i].id)
  {
    seq(|room.participants|, i requires 0 <= i < |room.participants| =>
      ParticipantVote(room.participants[i].id, room.participants[i].name,
                      FindVote(room.votes, room.participants[i].id)))
  }

  /** The badge beside a participant: shown only for a non-empty vote value, reading the value
      when votes are visible and "?" when they are not. */
  function Badge(vote: Option<VoteEntry>, votesVisible: bool): (b: Option<string>)
    ensures b.Some? <==> vote.Some? && vote.value.value != ""
    ensures b.Some? && votesVisible ==> b.value == vote.value.value
    ensures b.Some? && !votesVisible ==> b.value == "?"
  {
    if vote.None? || vote.value.value == "" then None
    else if votesVisible then Some(vote.value.value)
    else Some("?")
  }

  /** The badges of the whole list, in participant order. */
  function Badges(room: Room): (r: seq<Option<string>>)
    ensures |r| == |room.participants|
    ensures forall i :: 0 <= i < |r| ==>
      r[i] == Badge(FindVote(room.votes, room.participants[i].id), room.votesVisible)
  {
    var rows := ParticipantsWithVotes(room);
    seq(|rows|, i requires 0 <= i < |rows| => Badge(rows[i].vote, room.votesVisible))
  }

  /** Two vote lists that differ only in the values cast, and not in which of those are empty. */
  ghost predicate SameBallots(a: seq<VoteEntry>, b: seq<VoteEntry>) {
    && |a| == |b|
    && forall i :: 0 <= i < |a| ==> a[i].userId == b[i].userId && (a[i].value == "") == (b[i].value == "")
  }

  lemma {:induction false} FindVoteSameBallots(a: seq<VoteEntry>, b: seq<VoteEntry>, user: UserId)
    requires SameBallots(a, b)
    ensures FindVote(a, user).None? <==> FindVote(b, user).None?
    ensures FindVote(a, user).Some? ==> (FindVote(a, user).value.value == "") == (FindVote(b, user).value.value == "")
  {
    if a != [] && a[0].userId != user {
      assert SameBallots(a[1..], b[1..]) by {
        forall i | 0 <= i < |a[1..]|
          ensures a[1..][i].userId == b[1..][i].userId && (a[1..][i].value == "") == (b[1..][i].value == "")
        {
          assert a[1..][i] == a[i + 1] && b[1..][i] == b[i + 1];
        }
      }
      FindVoteSameBallots(a[1..], b[1..], user);
    }
  }

  /** Until the room reveals its votes, the list gives away who voted but not what: two rooms
      whose votes differ only in their values render the same badges. */
  lemma HiddenVotesRevealNothing(r1: Room, r2: Room)
    requires !r1.votesVisible && !r2.votesVisible
    requires r1.participants == r2.participants
    requires SameBallots(r1.votes, r2.votes)
    ensures Badges(r1) == Badges(r2)
  {
    forall i | 0 <= i < |r1.participants|
      ensures Badges(r1)[i] == Badges(r2)[i]
    {
      FindVoteSameBallots(r1.votes, r2.votes, r1.participants[i].id);
    }
  }

  /** The visibility button reads "Hide" while votes are visible and "Reveal" otherwise. */
  function ToggleLabel(votesVisible: bool): (text: string)
    ensures text == "Hide" <==> votesVisible
    ensures text == "Reveal" <==> !votesVisible
  {
    if votesVisible then "Hide" else "Reveal"
  }

  /** The Reset button as written: shown whenever the owner is the first participant listed,
      whoever is looking at the page. */
  predicate ShowReset(room: Room) {
    |room.participants| > 0 && room.ownerId == room.participants[0].id
  }

  /** The Reset button as the server's owner check would have it: shown to the owner only. */
  predicate ShowResetFor(room: Room, viewer: UserId) {
    viewer == room.ownerId
  }
}
