/** The room as the client receives it from `getRoom`/`getBySlug`, the vote-list operation both
    optimistic cast-vote updates perform, and the two query-cache entries they write. */
module ClientRoom {
  import opened Wrappers
  import opened Store

  datatype Participant = Participant(id: UserId, name: Option<string>)

  /** A vote as included in a room: `{ id, userId, roomId, value, createdAt, updatedAt }`. */
  datatype VoteEntry = VoteEntry(
    id: string, userId: UserId, roomId: RoomId, value: string, createdAt: nat, updatedAt: nat)

  /** `RouterOutputs["room"]["getRoom"]`: the room row with its participants and votes. */
  datatype Room = Room(
    id: RoomId,
    slug: string,
    name: string,
    description: Option<string>,
    ownerId: UserId,
    votesVisible: bool,
    deletedAt: Option<nat>,
    createdAt: nat,
    participants: seq<Participant>,
    votes: seq<VoteEntry>)

  /** The entries of `votes` cast by `user` (`own`) or by everybody else (`!own`), in their
      original order: `votes.filter(v => (v.userId === user) === own)`. */
  function Select(votes: seq<VoteEntry>, user: UserId, own: bool): (r: seq<VoteEntry>)
    ensures forall v :: v in r <==> v in votes && (v.userId == user) == own
    ensures |r| <= |votes|
  {
    if votes == [] then []
    else (if (votes[0].userId == user) == own then [votes[0]] else []) + Select(votes[1..], user, own)
  }

  lemma {:induction false} SelectAppend(a: seq<VoteEntry>, b: seq<VoteEntry>, user: UserId, own: bool)
    ensures Select(a + b, user, own) == Select(a, user, own) + Select(b, user, own)
  {
    if a != [] {
      assert (a + b)[1..] == a[1..] + b;
      SelectAppend(a[1..], b, user, own);
    } else {
      assert a + b == b;
    }
  }

  /** Selecting one side twice is selecting it once; selecting the other side of it is empty. */
  lemma {:induction false} SelectOfSelect(votes: seq<VoteEntry>, user: UserId, own: bool, again: bool)
    ensures Select(Select(votes, user, own), user, again) == if own == again then Select(votes, user, own) else []
  {
    if votes != [] {
      var head := if (votes[0].userId == user) == own then [votes[0]] else [];
      SelectOfSelect(votes[1..], user, own, again);
      SelectAppend(head, Select(votes[1..], user, own), user, again);
    }
  }

  /** The vote list after the optimistic cast: the user's entries dropped, then the new entry
      appended when there is one. */
  function ReplaceOwnVote(votes: seq<VoteEntry>, user: UserId, entry: Option<VoteEntry>)
    : (r: seq<VoteEntry>)
    requires entry.Some? ==> entry.value.userId == user
    ensures Select(r, user, false) == Select(votes, user, false)
    ensures Select(r, user, true) == if entry.Some? then [entry.value] else []
    ensures entry.Some? ==> |r| > 0 && r[|r| - 1] == entry.value
  {
    var others := Select(votes, user, false);
    var added := if entry.Some? then [entry.value] else [];
    SelectAppend(others, added, user, false);
    SelectAppend(others, added, user, true);
    SelectOfSelect(votes, user, false, false);
    SelectOfSelect(votes, user, false, true);
    others + added
  }

  /** The two cache entries a room page may be showing: `getRoom` keyed by the room's id and
      `getBySlug` keyed by its slug. */
  datatype CacheState = CacheState(byId: Option<Room>, bySlug: Option<Room>)

  /** The snapshot `onMutate` takes: `getRoom.getData(...) ?? getBySlug.getData(...)`. */
  function Previous(e: CacheState): (p: Option<Room>)
    ensures p.None? <==> e.byId.None? && e.bySlug.None?
    ensures e.byId.Some? ==> p == e.byId
    ensures e.byId.None? ==> p == e.bySlug
  {
    if e.byId.Some? then e.byId else e.bySlug
  }

  /** What `onError` leaves: when a snapshot was taken, both entries are set to it. */
  function RolledBack(e: CacheState, previous: Option<Room>): (r: CacheState)
    ensures previous.Some? ==> r.byId == previous && r.bySlug == previous
    ensures previous.None? ==> r == e
  {
    if previous.Some? then CacheState(previous, previous) else e
  }

  /** Snapshot, an update that keeps an absent entry absent, rollback: the entry the snapshot was
      read from gets its value back, and the whole cache is restored exactly when the two entries
      agreed beforehand (otherwise the other entry is overwritten with the snapshot). */
  lemma RollbackRestoresSnapshot(e: CacheState, update: Option<Room> -> Option<Room>)
    requires update(None) == None
    ensures var after := RolledBack(CacheState(update(e.byId), update(e.bySlug)), Previous(e));
      && Previous(after) == Previous(e)
      && (e.byId.Some? ==> after.byId == e.byId)
      && (e.byId.None? ==> after.bySlug == e.bySlug)
      && (after == e <==> e.byId == e.bySlug)
  {
  }

  /** The query cache that `setData` writes. */
  class QueryCache {
    var byId: Option<Room>
    var bySlug: Option<Room>

    function State(): CacheState
      reads this
    {
      CacheState(byId, bySlug)
    }

    constructor (initial: CacheState)
      ensures State() == initial
    {
      byId, bySlug := initial.byId, initial.bySlug;
    }

    /** `getRoom.setData(key, update)`. An update that yields nothing (`undefined`) leaves the
        entry as it was. */
    method SetById(update: Option<Room> -> Option<Room>)
      modifies this
      ensures byId == (if update(old(byId)).Some? then update(old(byId)) else old(byId))
      ensures bySlug == old(bySlug)
    {
      var next := update(byId);
      if next.Some? {
        byId := next;
      }
    }

    /** `getBySlug.setData(key, update)`, with the same rule for an empty result. */
    method SetBySlug(update: Option<Room> -> Option<Room>)
      modifies this
      ensures bySlug == (if update(old(bySlug)).Some? then update(old(bySlug)) else old(bySlug))
      ensures byId == old(byId)
    {
      var next := update(bySlug);
      if next.Some? {
        bySlug := next;
      }
    }
  }
}
