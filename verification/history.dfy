/** A player's match history: the rating events they received, newest
    first, reduced to distinct matches, each shown with its result, the
    opponent's name and the Elo change; and archiving a match from it. */
module History {
  import opened Wrappers
  import opened GameTypes
  import opened Schema
  import opened Lists

  datatype GameResult = Win | Loss | DrawResult

  /** `resolveResult`: a draw is a draw whatever the winner field says;
      any other status is a win exactly for the recorded winner. */
  function ResolveResult(status: Status, winner: Option<Symbol>, symbol: Symbol): (r: GameResult)
    ensures r == DrawResult <==> status == Draw
    ensures r == Win <==> status != Draw && winner == Some(symbol)
  {
    if status == Draw then DrawResult
    else if winner == Some(symbol) then Win
    else Loss
  }

  /** When a game that is not a draw has a winner, the two seats see
      opposite results; without a winner both see a loss. */
  lemma ResultsComplement(status: Status, winner: Option<Symbol>)
    requires status != Draw
    ensures winner.Some? ==> (ResolveResult(status, winner, X) == Win <==> ResolveResult(status, winner, O) == Loss)
    ensures winner.None? ==> ResolveResult(status, winner, X) == Loss && ResolveResult(status, winner, O) == Loss
  {
    match winner
    case None =>
    case Some(X) =>
      assert ResolveResult(status, winner, X) == Win && ResolveResult(status, winner, O) == Loss;
    case Some(O) =>
      assert ResolveResult(status, winner, X) == Loss && ResolveResult(status, winner, O) == Win;
  }

  const HistoryDefaultLimit := 50

  /** The number of matches `getPlayerHistory` lists. */
  function HistoryLimit(arg: Option<int>): (n: int)
    ensures 1 <= n <= 100
    ensures arg.None? ==> n == HistoryDefaultLimit
    ensures arg.Some? && 1 <= arg.value <= 100 ==> n == arg.value
    ensures arg.Some? && arg.value < 1 ==> n == 1
    ensures arg.Some? && arg.value > 100 ==> n == 100
  {
    ClampLimit(arg, HistoryDefaultLimit)
  }

  /** Whether an event belongs to `playerId`: the `by_playerId` index key. */
  function IsOwnEvent(playerId: string): RatingEvent -> bool {
    (e: RatingEvent) => e.playerId == playerId
  }

  /** The player's rating events in descending index order: most recently
      inserted first. */
  function EventsNewestFirst(events: seq<RatingEvent>, playerId: string): (r: seq<RatingEvent>)
    ensures forall i :: 0 <= i < |r| ==> r[i].playerId == playerId && r[i] in events
    ensures forall e :: e in events && e.playerId == playerId ==> e in r
  {
    if events == [] then []
    else
      var n := |events| - 1;
      assert events == events[..n] + [events[n]];
      (if events[n].playerId == playerId then [events[n]] else []) + EventsNewestFirst(events[..n], playerId)
  }

  /** Newest first is the reverse of insertion order: the player's events
      as a filter of the table keeps them, read backwards. */
  lemma {:induction false} EventsNewestFirstOrder(events: seq<RatingEvent>, playerId: string)
    ensures EventsNewestFirst(events, playerId) == Reverse(Keep(events, IsOwnEvent(playerId)))
  {
    if events != [] {
      var n := |events| - 1;
      EventsNewestFirstOrder(events[..n], playerId);
      assert events == events[..n] + [events[n]];
      NewestFirstStep(events[..n], events[n], playerId);
    }
  }

  /** The newest of the player's events is the last stored event when it is
      theirs; the rest come from the events stored before it. */
  lemma NewestFirstStep(earlier: seq<RatingEvent>, last: RatingEvent, playerId: string)
    ensures Reverse(Keep(earlier + [last], IsOwnEvent(playerId)))
      == (if last.playerId == playerId then [last] else []) + Reverse(Keep(earlier, IsOwnEvent(playerId)))
  {
    var own := IsOwnEvent(playerId);
    var kept := Keep(earlier, own);
    KeepSnoc(earlier, last, own);
    if own(last) {
      ReverseSnoc(kept, last);
    } else {
      assert kept + [] == kept;
    }
  }

  /** The match id of every event, in order. */
  function MatchIds(events: seq<RatingEvent>): seq<string> {
    KeysOf(events, (e: RatingEvent) => e.matchId)
  }

  /** `eloDelta`: the delta of the first event of `events` for this match
      and player, or 0 when there is none. */
  function EloDelta(events: seq<RatingEvent>, matchId: string, playerId: string): (d: int)
    ensures (forall i :: 0 <= i < |events| ==> events[i].matchId != matchId || events[i].playerId != playerId) ==> d == 0
    ensures (exists i :: 0 <= i < |events| && events[i].matchId == matchId && events[i].playerId == playerId) ==>
      exists i :: 0 <= i < |events| && events[i].matchId == matchId && events[i].playerId == playerId
                  && events[i].delta == d
                  && forall j :: 0 <= j < i ==> events[j].matchId != matchId || events[j].playerId != playerId
  {
    if events == [] then 0
    else if events[0].matchId == matchId && events[0].playerId == playerId then events[0].delta
    else
      var d := EloDelta(events[1..], matchId, playerId);
      assert forall i :: 1 <= i < |events| ==> events[i] == events[1..][i - 1];
      if exists i :: 0 <= i < |events[1..]| && events[1..][i].matchId == matchId && events[1..][i].playerId == playerId then
        var i :| 0 <= i < |events[1..]| && events[1..][i].matchId == matchId && events[1..][i].playerId == playerId
                 && events[1..][i].delta == d
                 && forall j :: 0 <= j < i ==> events[1..][j].matchId != matchId || events[1..][j].playerId != playerId;
        assert events[i + 1].delta == d;
        d
      else d
  }

  /** A seat's id as the history reads it: an empty id counts as no one. */
  function SeatId(seat: Option<string>): Option<string> {
    if seat.Some? && seat.value != "" then seat else None
  }

  /** The symbol `playerId` holds, X checked first. */
  function HistorySymbol(players: Seats, playerId: string): (r: Option<Symbol>)
    ensures r.Some? <==> SeatId(players.x) == Some(playerId) || SeatId(players.o) == Some(playerId)
    ensures r.Some? ==> SeatOf(players, r.value) == Some(playerId)
    ensures SeatId(players.x) == Some(playerId) ==> r == Some(X)
  {
    if SeatId(players.x) == Some(playerId) then Some(X)
    else if SeatId(players.o) == Some(playerId) then Some(O)
    else None
  }

  datatype HistoryEntry = HistoryEntry(
    matchId: string,
    roomCode: string,
    boardSize: int,
    winLength: int,
    status: Status,
    result: GameResult,
    opponentName: string,
    eloDelta: int,
    playedAt: int,
    roundNumber: int,
    archived: bool)

  const UnknownOpponent := "Unknown"

  /** `Boolean(match.deletedAt)`: set and not zero. */
  predicate IsArchived(m: MatchRecord) {
    m.deletedAt.Some? && m.deletedAt.value != 0
  }

  /** The entry for one match id, or none when the match is missing, not
      finished, or the player holds no seat in it. */
  function EntryFor(st: Store, players: map<string, Player>, events: seq<RatingEvent>, playerId: string,
                    matchId: string): (r: Option<HistoryEntry>)
    ensures r.Some? <==>
      && FindMatch(st.matches, matchId).Some?
      && IsTerminal(st.matches[FindMatch(st.matches, matchId).value].status)
      && HistorySymbol(st.matches[FindMatch(st.matches, matchId).value].players, playerId).Some?
    ensures r.Some? ==>
      var m := st.matches[FindMatch(st.matches, matchId).value];
      var symbol := HistorySymbol(m.players, playerId).value;
      && r.value.matchId == matchId && r.value.status == m.status
      && r.value.result == ResolveResult(m.status, m.winner, symbol)
      && r.value.eloDelta == EloDelta(events, matchId, playerId)
      && r.value.archived == IsArchived(m)
      && r.value.roundNumber == m.roundNumber
      && r.value.roomCode == m.roomCode && r.value.playedAt == m.updatedAt
      && r.value.boardSize == m.config.size && r.value.winLength == m.config.winLength
    // The opponent is shown by the name stored for the other seat's player,
    // or as "Unknown" when that seat is empty or its player is missing.
    ensures r.Some? ==>
      var m := st.matches[FindMatch(st.matches, matchId).value];
      var opponent := SeatId(SeatOf(m.players, Opponent(HistorySymbol(m.players, playerId).value)));
      && (opponent.Some? && opponent.value in players ==> r.value.opponentName == players[opponent.value].displayName)
      && (opponent.None? || opponent.value !in players ==> r.value.opponentName == UnknownOpponent)
  {
    match FindMatch(st.matches, matchId)
    case None => None
    case Some(i) =>
      var m := st.matches[i];
      if !IsTerminal(m.status) then None
      else match HistorySymbol(m.players, playerId)
        case None => None
        case Some(symbol) =>
          var opponentId := SeatId(if symbol == X then m.players.o else m.players.x);
          var opponentName :=
            if opponentId.Some? && opponentId.value in players then players[opponentId.value].displayName
            else UnknownOpponent;
          Some(HistoryEntry(matchId, m.roomCode, m.config.size, m.config.winLength, m.status,
                            ResolveResult(m.status, m.winner, symbol), opponentName,
                            EloDelta(events, matchId, playerId), m.updatedAt, m.roundNumber, IsArchived(m)))
  }

  /** Whether a match id yields a history entry for `playerId`. */
  function HasEntry(st: Store, players: map<string, Player>, events: seq<RatingEvent>, playerId: string)
    : string -> bool
  {
    (id: string) => EntryFor(st, players, events, playerId, id).Some?
  }

  /** The match id of every entry, in order. */
  function EntryIds(entries: seq<HistoryEntry>): seq<string> {
    KeysOf(entries, (e: HistoryEntry) => e.matchId)
  }

  /** The entries for a list of match ids, in order, skipping the ids
      without an entry. */
  function Entries(st: Store, players: map<string, Player>, events: seq<RatingEvent>, playerId: string,
                   ids: seq<string>): (r: seq<HistoryEntry>)
    ensures |r| <= |ids|
    ensures forall k :: 0 <= k < |r| ==> r[k].matchId in ids && EntryFor(st, players, events, playerId, r[k].matchId) == Some(r[k])
    ensures forall id :: id in ids && EntryFor(st, players, events, playerId, id).Some? ==>
      EntryFor(st, players, events, playerId, id).value in r
  {
    if ids == [] then []
    else
      var rest := Entries(st, players, events, playerId, ids[1..]);
      var entry := EntryFor(st, players, events, playerId, ids[0]);
      if entry.Some? then [entry.value] + rest else rest
  }

  /** The entries follow the ids: their match ids are exactly the ids that
      have an entry, in the order and with the repeats of `ids`. */
  lemma {:induction false} EntriesFollowIds(st: Store, players: map<string, Player>, events: seq<RatingEvent>,
                                            playerId: string, ids: seq<string>)
    ensures EntryIds(Entries(st, players, events, playerId, ids)) == Keep(ids, HasEntry(st, players, events, playerId))
  {
    if ids != [] {
      var rest := Entries(st, players, events, playerId, ids[1..]);
      var entry := EntryFor(st, players, events, playerId, ids[0]);
      EntriesFollowIds(st, players, events, playerId, ids[1..]);
      if entry.Some? {
        assert ([entry.value] + rest)[1..] == rest;
      }
    }
  }

  /** `getPlayerHistory`: the distinct matches of the player's newest
      events, up to the clamped limit, each that still resolves to a
      finished match the player sat in. */
  method GetPlayerHistory(st: Store, players: map<string, Player>, playerId: string, limitArg: Option<int>)
    returns (entries: seq<HistoryEntry>)
    ensures var events := EventsNewestFirst(st.ratingEvents, playerId);
      var distinct := Dedup(MatchIds(events));
      var limit := HistoryLimit(limitArg);
      entries == Entries(st, players, events, playerId, distinct[..Min(limit, |distinct|)])
    ensures |entries| <= HistoryLimit(limitArg)
    ensures forall k :: 0 <= k < |entries| ==> IsTerminal(entries[k].status)
    ensures NoDups(EntryIds(entries))
  {
    var limit := HistoryLimit(limitArg);
    var events := EventsNewestFirst(st.ratingEvents, playerId);
    var unique := UniqueUpTo(MatchIds(events), limit);
    entries := Entries(st, players, events, playerId, unique);
    var distinct := Dedup(MatchIds(events));
    assert unique == distinct[..Min(limit, |distinct|)];
    assert NoDups(unique);
    KeepNoDups(unique, HasEntry(st, players, events, playerId));
    EntriesFollowIds(st, players, events, playerId, unique);
  }

  /** `archiveMatch`: only a seated player may archive; the match is
      stamped with the time. */
  function ArchiveMatch(st: Store, matchId: string, playerId: string, now: int): (r: Result<Store, string>)
    ensures FindMatch(st.matches, matchId).None? ==> r == Failure("Match not found.")
    ensures r.Failure? && FindMatch(st.matches, matchId).Some? ==>
      r.error == "You are not a participant in this match."
      && HistorySymbol(st.matches[FindMatch(st.matches, matchId).value].players, playerId).None?
    ensures r.Success? ==>
      var i := FindMatch(st.matches, matchId).value;
      && HistorySymbol(st.matches[i].players, playerId).Some?
      && r.value == st.(matches := st.matches[i := st.matches[i].(deletedAt := Some(now))])
  {
    match FindMatch(st.matches, matchId)
    case None => Failure("Match not found.")
    case Some(i) =>
      var m := st.matches[i];
      if HistorySymbol(m.players, playerId).None? then Failure("You are not a participant in this match.")
      else Success(st.(matches := st.matches[i := m.(deletedAt := Some(now))]))
  }

  /** Archiving only flags the entry: the match still appears in every
      seated player's history, unchanged but for the flag. */
  lemma ArchiveKeepsEntry(st: Store, players: map<string, Player>, events: seq<RatingEvent>, matchId: string,
                          playerId: string, viewer: string, now: int)
    requires ArchiveMatch(st, matchId, playerId, now).Success?
    ensures var st' := ArchiveMatch(st, matchId, playerId, now).value;
      var before := EntryFor(st, players, events, viewer, matchId);
      var after := EntryFor(st', players, events, viewer, matchId);
      && before.Some? == after.Some?
      && (after.Some? ==> after.value == before.value.(archived := now != 0))
  {
    var i := FindMatch(st.matches, matchId).value;
    var st' := ArchiveMatch(st, matchId, playerId, now).value;
    assert FindMatch(st'.matches, matchId) == Some(i) by {
      assert st'.matches[i].id == matchId;
      assert forall j :: 0 <= j < i ==> st'.matches[j] == st.matches[j];
      assert forall j :: 0 <= j < i ==> st'.matches[j].id != matchId;
    }
  }
}
