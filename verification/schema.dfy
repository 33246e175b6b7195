/** The stored documents of the server, one datatype per table, and the
    database as an immutable value. Document ids are strings; an optional
    field is an `Option`. A table read through an index is a sequence in
    insertion order, which is also the order in which an index query
    returns documents that share the index key; a table looked up only by
    player id or player pair is a map. */
module Schema {
  import opened Wrappers
  import opened Lists
  import opened GameTypes

  /** A match document: the engine state plus room management fields. */
  datatype MatchRecord = MatchRecord(
    id: string,
    roomCode: string,
    config: GameConfig,
    status: Status,
    board: seq<Cell>,
    players: Seats,
    nextPlayer: Symbol,
    roundNumber: int,
    turnNumber: int,
    turnDeadlineAt: int,
    rematchRequestedBy: Option<Symbol>,
    winner: Option<Symbol>,
    winningLine: Option<seq<int>>,
    lastMoveIndex: Option<real>,
    deletedAt: Option<int>,
    createdAt: int,
    updatedAt: int)

  /** One accepted move. */
  datatype MoveRecord = MoveRecord(
    matchId: string,
    roundNumber: int,
    turn: int,
    playerId: string,
    symbol: Symbol,
    cellIndex: real,
    playedAt: int,
    deadlineAt: int)

  /** A player's rating. */
  datatype Rating = Rating(
    playerId: string,
    elo: int,
    gamesPlayed: int,
    provisionalUntil: Option<int>,
    updatedAt: int)

  /** One player's rating change for one round of one match. */
  datatype RatingEvent = RatingEvent(
    matchId: string,
    roundNumber: int,
    playerId: string,
    beforeElo: int,
    afterElo: int,
    delta: int,
    createdAt: int)

  /** Head-to-head counters for an unordered pair of players, stored under
      the pair's (low, high) order. */
  datatype H2H = H2H(
    playerLowId: string,
    playerHighId: string,
    lowWins: int,
    highWins: int,
    draws: int,
    lastPlayedAt: int)

  datatype IdentityTier = Guest | Secured

  datatype Player = Player(
    id: string,
    displayName: string,
    guestId: Option<string>,
    guestSecret: Option<string>,
    identityTier: Option<IdentityTier>,
    lastSeenAt: Option<int>,
    claimedUserId: Option<string>,
    createdAt: int)

  datatype Flow = Register | Authenticate

  /** A WebAuthn challenge issued to a client. */
  datatype Challenge = Challenge(
    challenge: string,
    flow: Flow,
    playerId: Option<string>,
    expiresAt: int,
    usedAt: Option<int>,
    createdAt: int)

  datatype DeviceType = SingleDevice | MultiDevice

  /** A WebAuthn credential bound to a player. */
  datatype Credential = Credential(
    playerId: string,
    credentialID: string,
    publicKey: string,
    counter: int,
    deviceType: DeviceType,
    backedUp: bool,
    transports: Option<seq<string>>,
    createdAt: int,
    lastUsedAt: Option<int>)

  /** The tables the match lifecycle and the rating finalizer touch. */
  datatype Store = Store(
    matches: seq<MatchRecord>,
    moves: seq<MoveRecord>,
    ratings: map<string, Rating>,
    ratingEvents: seq<RatingEvent>,
    h2hStats: map<(string, string), H2H>)

  /** The position of the first document of `matches` with id `id`, as
      `ctx.db.get` finds it. */
  function FindMatch(matches: seq<MatchRecord>, id: string): (r: Option<nat>)
    ensures r.Some? ==> r.value < |matches| && matches[r.value].id == id
    ensures r.Some? ==> forall j :: 0 <= j < r.value ==> matches[j].id != id
    ensures r.None? ==> forall j :: 0 <= j < |matches| ==> matches[j].id != id
  {
    FirstWith(matches, (m: MatchRecord) => m.id, id)
  }

  /** The position of the first match with room code `code`, as the
      `by_roomCode` index returns it. */
  function FindRoom(matches: seq<MatchRecord>, code: string): (r: Option<nat>)
    ensures r.Some? ==> r.value < |matches| && matches[r.value].roomCode == code
    ensures r.Some? ==> forall j :: 0 <= j < r.value ==> matches[j].roomCode != code
    ensures r.None? ==> forall j :: 0 <= j < |matches| ==> matches[j].roomCode != code
  {
    FirstWith(matches, (m: MatchRecord) => m.roomCode, code)
  }
}
