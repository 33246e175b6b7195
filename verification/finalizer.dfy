/** The competitive finalizer: once a round of a match has ended, both
    players' ratings move by their Elo deltas, two rating events record the
    change, and the pair's head-to-head counters are bumped, all at most
    once per (match, round). The Elo arithmetic itself (expected score and
    rounding) is a parameter. */
module Finalizer {
  import opened Wrappers
  import opened GameTypes
  import opened Text
  import opened Schema

  const BaseElo := 1200
  const BaseK := 24
  const ProvisionalK := 32
  const ProvisionalGames := 12

  datatype ScorePair = ScorePair(xScore: real, oScore: real)

  /** `computeScorePair`: a draw is half a point each, whatever the winner
      field says; otherwise the winner takes the point, and without a winner
      there is nothing to score. */
  function ComputeScorePair(status: Status, winner: Option<Symbol>): (r: Option<ScorePair>)
    ensures status == Draw ==> r == Some(ScorePair(0.5, 0.5))
    ensures status != Draw ==> (r.Some? <==> winner.Some?)
    ensures r.Some? ==> r.value.xScore + r.value.oScore == 1.0
    ensures r.Some? && status != Draw ==>
      (r.value.xScore == 1.0 <==> winner == Some(X)) && (r.value.oScore == 1.0 <==> winner == Some(O))
  {
    if status == Draw then Some(ScorePair(0.5, 0.5))
    else match winner
      case Some(X) => Some(ScorePair(1.0, 0.0))
      case Some(O) => Some(ScorePair(0.0, 1.0))
      case None => None
  }

  /** `computeKFactor`: provisional players move faster. */
  function ComputeKFactor(gamesPlayed: int): (k: int)
    ensures k == ProvisionalK <==> gamesPlayed < ProvisionalGames
    ensures k == BaseK <==> gamesPlayed >= ProvisionalGames
  {
    if gamesPlayed < ProvisionalGames then ProvisionalK else BaseK
  }

  /** The rounded Elo change for a player with factor `k`, own rating, the
      opponent's rating and the score obtained. */
  type EloRule = (int, int, int, real) -> int

  /** `getOrCreateRating`: the stored rating, or a fresh provisional one. */
  function GetOrCreateRating(ratings: map<string, Rating>, playerId: string, now: int): (r: Rating)
    ensures r.playerId == playerId || playerId in ratings
    ensures playerId in ratings ==> r == ratings[playerId]
    ensures playerId !in ratings ==>
      r.elo == BaseElo && r.gamesPlayed == 0 && r.provisionalUntil == Some(ProvisionalGames)
  {
    if playerId in ratings then ratings[playerId]
    else Rating(playerId, BaseElo, 0, Some(ProvisionalGames), now)
  }

  /** Games a player had completed before, zero for an unrated player. */
  function PriorGames(ratings: map<string, Rating>, playerId: string): int {
    if playerId in ratings then ratings[playerId].gamesPlayed else 0
  }

  /** Rating a player had before, the base rating for an unrated player. */
  function PriorElo(ratings: map<string, Rating>, playerId: string): int {
    if playerId in ratings then ratings[playerId].elo else BaseElo
  }

  /** The Elo change the rule gives `self` against `opponent` for `score`,
      from the ratings both had before the game: the K-factor follows the
      games `self` had completed. */
  function SeatDelta(ratings: map<string, Rating>, self: string, opponent: string, score: real, elo: EloRule): int {
    elo(ComputeKFactor(PriorGames(ratings, self)), PriorElo(ratings, self), PriorElo(ratings, opponent), score)
  }

  /** The rating after one more game with change `delta`. */
  function Rated(r: Rating, delta: int, now: int): Rating {
    var games := r.gamesPlayed + 1;
    r.(elo := r.elo + delta, gamesPlayed := games,
       provisionalUntil := Some(Max0(ProvisionalGames - games)),
       updatedAt := now)
  }

  // ---------------------------------------------------------------------
  // Head-to-head

  /** The stored key of a pair: X's id first exactly when it is smaller. */
  function PairKey(xId: string, oId: string): (string, string) {
    if LexLess(xId, oId) then (xId, oId) else (oId, xId)
  }

  datatype Side = LowSide | HighSide | DrawSide

  /** The counter a finished game bumps. */
  function CreditedSide(xId: string, oId: string, winner: Option<Symbol>): Side {
    match winner
    case None => DrawSide
    case Some(X) => if LexLess(xId, oId) then LowSide else HighSide
    case Some(O) => if LexLess(xId, oId) then HighSide else LowSide
  }

  /** `upsertHeadToHead`: the row stored under the pair's (low, high) key
      gains exactly one win for the winner's id, or one draw; nothing else
      in the table changes. */
  function UpsertHeadToHead(h2h: map<(string, string), H2H>, players: Seats, winner: Option<Symbol>, now: int)
    : (r: map<(string, string), H2H>)
    ensures players.x.None? || players.o.None? ==> r == h2h
    ensures players.x.Some? && players.o.Some? ==>
      var key := PairKey(players.x.value, players.o.value);
      var before := if key in h2h then h2h[key] else H2H(key.0, key.1, 0, 0, 0, now);
      && key in r
      && r[key].lastPlayedAt == now
      && r[key].playerLowId == before.playerLowId && r[key].playerHighId == before.playerHighId
      && r[key].lowWins + r[key].highWins + r[key].draws == before.lowWins + before.highWins + before.draws + 1
      && before.lowWins <= r[key].lowWins && before.highWins <= r[key].highWins && before.draws <= r[key].draws
      && (winner.None? <==> r[key].draws == before.draws + 1)
      && (r[key].lowWins > before.lowWins ==> winner.Some? && key.0 == SeatOf(players, winner.value).value)
      && (r[key].highWins > before.highWins ==> winner.Some? && key.1 == SeatOf(players, winner.value).value)
    ensures forall k :: k != PairKey(players.x.GetOr(""), players.o.GetOr("")) && k in h2h ==> k in r && r[k] == h2h[k]
    ensures forall k :: k in r ==> k in h2h || (players.x.Some? && players.o.Some? && k == PairKey(players.x.value, players.o.value))
  {
    if players.x.None? || players.o.None? then h2h
    else
      var xId := players.x.value;
      var oId := players.o.value;
      var key := PairKey(xId, oId);
      var side := CreditedSide(xId, oId, winner);
      var lowWins := (if key in h2h then h2h[key].lowWins else 0) + (if side == LowSide then 1 else 0);
      var highWins := (if key in h2h then h2h[key].highWins else 0) + (if side == HighSide then 1 else 0);
      var draws := (if key in h2h then h2h[key].draws else 0) + (if side == DrawSide then 1 else 0);
      if key in h2h then
        h2h[key := h2h[key].(lowWins := lowWins, highWins := highWins, draws := draws, lastPlayedAt := now)]
      else
        h2h[key := H2H(key.0, key.1, lowWins, highWins, draws, now)]
  }

  // ---------------------------------------------------------------------
  // The finalizer

  predicate IsRoundEvent(e: RatingEvent, matchId: string, roundNumber: int) {
    e.matchId == matchId && e.roundNumber == roundNumber
  }

  /** Some rating event already records this round of this match. */
  predicate HasRoundEvent(events: seq<RatingEvent>, matchId: string, roundNumber: int) {
    exists i :: 0 <= i < |events| && IsRoundEvent(events[i], matchId, roundNumber)
  }

  /** Everything `finalizeCompetitiveResult` requires before it scores. */
  predicate ShouldScore(st: Store, m: MatchRecord, status: Status, winner: Option<Symbol>) {
    && IsTerminal(status)
    && m.players.x.Some? && m.players.o.Some?
    && !HasRoundEvent(st.ratingEvents, m.id, m.roundNumber)
    && ComputeScorePair(status, winner).Some?
  }

  /** The ratings after a scored round and the round's two events. */
  datatype RoundRating = RoundRating(ratings: map<string, Rating>, xEvent: RatingEvent, oEvent: RatingEvent)

  /** The event a rated game records for one player. */
  predicate IsRatingEventFor(e: RatingEvent, ratings: map<string, Rating>, m: MatchRecord, playerId: string, now: int) {
    && e.playerId == playerId
    && IsRoundEvent(e, m.id, m.roundNumber) && e.createdAt == now
    && e.afterElo == e.beforeElo + e.delta
    && e.beforeElo == PriorElo(ratings, playerId)
  }

  /** The stored rating of `p` after one more game that ended at `e`. */
  predicate IsRatedBy(before: map<string, Rating>, after: map<string, Rating>, p: string, e: RatingEvent, now: int) {
    && p in after && after[p].playerId == PlayerIdOf(before, p)
    && after[p].gamesPlayed == PriorGames(before, p) + 1
    && after[p].elo == e.afterElo
    && after[p].provisionalUntil == Some(Max0(ProvisionalGames - after[p].gamesPlayed))
    && after[p].updatedAt == now
  }

  /** Both players' rating updates for a scored round: each is fetched or
      created, moved by its delta from the Elo rule, and recorded. */
  function RateRound(ratings: map<string, Rating>, m: MatchRecord, pair: ScorePair, now: int, elo: EloRule)
    : (r: RoundRating)
    requires m.players.x.Some? && m.players.o.Some?
    ensures IsRatingEventFor(r.xEvent, ratings, m, m.players.x.value, now)
    ensures IsRatingEventFor(r.oEvent, ratings, m, m.players.o.value, now)
    // Each delta comes from the seat's own score and the pre-game ratings.
    ensures r.xEvent.delta == SeatDelta(ratings, m.players.x.value, m.players.o.value, pair.xScore, elo)
    ensures r.oEvent.delta == SeatDelta(ratings, m.players.o.value, m.players.x.value, pair.oScore, elo)
    ensures m.players.x != m.players.o ==>
      && IsRatedBy(ratings, r.ratings, m.players.x.value, r.xEvent, now)
      && IsRatedBy(ratings, r.ratings, m.players.o.value, r.oEvent, now)
    ensures forall p :: p in ratings && Some(p) != m.players.x && Some(p) != m.players.o ==>
      p in r.ratings && r.ratings[p] == ratings[p]
    ensures forall p :: p in r.ratings ==> p in ratings || Some(p) == m.players.x || Some(p) == m.players.o
  {
    var xId := m.players.x.value;
    var oId := m.players.o.value;
    var xRating := GetOrCreateRating(ratings, xId, now);
    var withX := ratings[xId := xRating];
    var oRating := GetOrCreateRating(withX, oId, now);
    var deltaX := elo(ComputeKFactor(xRating.gamesPlayed), xRating.elo, oRating.elo, pair.xScore);
    var deltaO := elo(ComputeKFactor(oRating.gamesPlayed), oRating.elo, xRating.elo, pair.oScore);
    var rated := withX[xId := Rated(xRating, deltaX, now)][oId := Rated(oRating, deltaO, now)];
    RoundRating(rated,
                RatingEvent(m.id, m.roundNumber, xId, xRating.elo, xRating.elo + deltaX, deltaX, now),
                RatingEvent(m.id, m.roundNumber, oId, oRating.elo, oRating.elo + deltaO, deltaO, now))
  }

  /** `finalizeCompetitiveResult`, with `m` the match document as it was
      read before the caller's patch, `now` the clock and `elo` the rounded
      Elo change. */
  function FinalizeCompetitiveResult(st: Store, m: MatchRecord, status: Status, winner: Option<Symbol>,
                                     now: int, elo: EloRule): (r: Store)
    // It scores exactly when every guard passes; otherwise nothing changes.
    ensures !ShouldScore(st, m, status, winner) ==> r == st
    ensures ShouldScore(st, m, status, winner) ==>
      && HasRoundEvent(r.ratingEvents, m.id, m.roundNumber)
      && |r.ratingEvents| == |st.ratingEvents| + 2
    // Only ratings, rating events and head-to-head rows change; events are appended.
    ensures r.matches == st.matches && r.moves == st.moves
    ensures |r.ratingEvents| >= |st.ratingEvents| && r.ratingEvents[..|st.ratingEvents|] == st.ratingEvents
    // Each new event is for this round, stamped now, and adds its delta.
    ensures forall i :: |st.ratingEvents| <= i < |r.ratingEvents| ==>
      IsRatingEventFor(r.ratingEvents[i], st.ratings, m, r.ratingEvents[i].playerId, now)
    // The event for X comes first, the one for O second.
    ensures ShouldScore(st, m, status, winner) ==>
      && r.ratingEvents[|st.ratingEvents|].playerId == m.players.x.value
      && r.ratingEvents[|st.ratingEvents| + 1].playerId == m.players.o.value
    // X is scored with X's share of the outcome's score pair, O with O's.
    ensures ShouldScore(st, m, status, winner) ==>
      var pair := ComputeScorePair(status, winner).value;
      && r.ratingEvents[|st.ratingEvents|].delta
         == SeatDelta(st.ratings, m.players.x.value, m.players.o.value, pair.xScore, elo)
      && r.ratingEvents[|st.ratingEvents| + 1].delta
         == SeatDelta(st.ratings, m.players.o.value, m.players.x.value, pair.oScore, elo)
    // Both players are rated: one more game, the event's new rating, and a
    // provisional countdown of the games left.
    ensures ShouldScore(st, m, status, winner) && m.players.x != m.players.o ==>
      forall i :: |st.ratingEvents| <= i < |r.ratingEvents| ==>
        IsRatedBy(st.ratings, r.ratings, r.ratingEvents[i].playerId, r.ratingEvents[i], now)
    // Nobody else's rating changes.
    ensures forall p :: p in st.ratings && Some(p) != m.players.x && Some(p) != m.players.o ==>
      p in r.ratings && r.ratings[p] == st.ratings[p]
    ensures forall p :: p in r.ratings ==> p in st.ratings || Some(p) == m.players.x || Some(p) == m.players.o
    // Head-to-head: the draw is credited as a draw whatever the winner field says.
    ensures ShouldScore(st, m, status, winner) ==>
      r.h2hStats == UpsertHeadToHead(st.h2hStats, m.players, if status == Draw then None else winner, now)
  {
    if !IsTerminal(status) || m.players.x.None? || m.players.o.None? then st
    else if HasRoundEvent(st.ratingEvents, m.id, m.roundNumber) then st
    else match ComputeScorePair(status, winner)
      case None => st
      case Some(pair) =>
        var rated := RateRound(st.ratings, m, pair, now, elo);
        var events := st.ratingEvents + [rated.xEvent, rated.oEvent];
        assert events[|st.ratingEvents|] == rated.xEvent && events[|st.ratingEvents| + 1] == rated.oEvent;
        assert events[..|st.ratingEvents|] == st.ratingEvents;
        var h2h := UpsertHeadToHead(st.h2hStats, m.players, if status == Draw then None else winner, now);
        st.(ratings := rated.ratings, ratingEvents := events, h2hStats := h2h)
  }

  function Max0(n: int): int {
    if n > 0 then n else 0
  }

  /** The id a rating is filed under: the stored one, or the player's own. */
  function PlayerIdOf(ratings: map<string, Rating>, p: string): string {
    if p in ratings then ratings[p].playerId else p
  }

  // ---------------------------------------------------------------------
  // Properties

  /** Finalizing the same outcome twice scores once: the second call finds
      the round's events and returns the store unchanged. */
  lemma FinalizeIdempotent(st: Store, m: MatchRecord, status: Status, winner: Option<Symbol>,
                           now1: int, now2: int, elo1: EloRule, elo2: EloRule)
    ensures var once := FinalizeCompetitiveResult(st, m, status, winner, now1, elo1);
      FinalizeCompetitiveResult(once, m, status, winner, now2, elo2) == once
  {
  }

  /** Once a round has been scored, no later call for that round of that
      match changes anything, whatever outcome it reports. */
  lemma ScoredRoundIsFinal(st: Store, m: MatchRecord, status: Status, winner: Option<Symbol>, now: int,
                           elo: EloRule, m': MatchRecord, status': Status, winner': Option<Symbol>, now': int,
                           elo': EloRule)
    requires ShouldScore(st, m, status, winner)
    requires m'.id == m.id && m'.roundNumber == m.roundNumber
    ensures var once := FinalizeCompetitiveResult(st, m, status, winner, now, elo);
      FinalizeCompetitiveResult(once, m', status', winner', now', elo') == once
  {
  }

  /** The number of rating events recorded for one round of one match. */
  function RoundEventCount(events: seq<RatingEvent>, matchId: string, roundNumber: int): (n: nat)
    ensures n <= |events|
    ensures n > 0 <==> HasRoundEvent(events, matchId, roundNumber)
  {
    if events == [] then 0
    else
      var last := events[|events| - 1];
      var rest := events[..|events| - 1];
      assert forall i :: 0 <= i < |rest| ==> rest[i] == events[i];
      RoundEventCount(rest, matchId, roundNumber) + (if IsRoundEvent(last, matchId, roundNumber) then 1 else 0)
  }

  lemma {:induction false} RoundEventCountAppend(events: seq<RatingEvent>, more: seq<RatingEvent>, matchId: string, roundNumber: int)
    ensures RoundEventCount(events + more, matchId, roundNumber)
            == RoundEventCount(events, matchId, roundNumber) + RoundEventCount(more, matchId, roundNumber)
    decreases |more|
  {
    if more != [] {
      var n := |more| - 1;
      assert (events + more)[..|events + more| - 1] == events + more[..n];
      assert (events + more)[|events + more| - 1] == more[n];
      RoundEventCountAppend(events, more[..n], matchId, roundNumber);
    } else {
      assert events + more == events;
    }
  }

  /** Every round of every match was scored either not at all or exactly
      once, as one event per seat: two events, for two different players. */
  ghost predicate ScoredAtMostOnce(events: seq<RatingEvent>) {
    && (forall matchId, roundNumber ::
          RoundEventCount(events, matchId, roundNumber) == 0 || RoundEventCount(events, matchId, roundNumber) == 2)
    && OneEventPerPlayer(events)
  }

  /** No player has two events for the same round of the same match. */
  predicate OneEventPerPlayer(events: seq<RatingEvent>) {
    forall i, j :: 0 <= i < j < |events| && IsRoundEvent(events[i], events[j].matchId, events[j].roundNumber) ==>
      events[i].playerId != events[j].playerId
  }

  /** The finalizer keeps every round scored at most once, one event per
      seat, provided the match's two seats are held by different players. */
  lemma FinalizeScoresOnce(st: Store, m: MatchRecord, status: Status, winner: Option<Symbol>, now: int, elo: EloRule)
    requires ScoredAtMostOnce(st.ratingEvents)
    requires m.players.x.Some? && m.players.o.Some? ==> m.players.x != m.players.o
    ensures ScoredAtMostOnce(FinalizeCompetitiveResult(st, m, status, winner, now, elo).ratingEvents)
  {
    var r := FinalizeCompetitiveResult(st, m, status, winner, now, elo);
    if ShouldScore(st, m, status, winner) {
      var n := |st.ratingEvents|;
      var added := r.ratingEvents[n..];
      assert r.ratingEvents == st.ratingEvents + added;
      forall matchId, roundNumber
        ensures RoundEventCount(r.ratingEvents, matchId, roundNumber) == 0
             || RoundEventCount(r.ratingEvents, matchId, roundNumber) == 2
      {
        RoundEventCountAppend(st.ratingEvents, added, matchId, roundNumber);
        assert added == [added[0]] + [added[1]];
        RoundEventCountAppend([added[0]], [added[1]], matchId, roundNumber);
        assert [added[0]][..0] == [] && [added[1]][..0] == [];
        if matchId == m.id && roundNumber == m.roundNumber {
          assert RoundEventCount(st.ratingEvents, matchId, roundNumber) == 0;
        } else {
          assert !IsRoundEvent(added[0], matchId, roundNumber) && !IsRoundEvent(added[1], matchId, roundNumber);
        }
      }
      forall i, j | 0 <= i < j < |r.ratingEvents|
                    && IsRoundEvent(r.ratingEvents[i], r.ratingEvents[j].matchId, r.ratingEvents[j].roundNumber)
        ensures r.ratingEvents[i].playerId != r.ratingEvents[j].playerId
      {
        if j < n {
          assert r.ratingEvents[i] == st.ratingEvents[i] && r.ratingEvents[j] == st.ratingEvents[j];
        } else if i < n {
          assert false;
        }
      }
    }
  }

  /** A rated player's provisional countdown is positive exactly while the
      provisional K-factor still applies to their next game. */
  lemma CountdownMatchesKFactor(r: Rating, delta: int, now: int)
    ensures var n := Rated(r, delta, now);
      n.provisionalUntil.Some? && (n.provisionalUntil.value > 0 <==> ComputeKFactor(n.gamesPlayed) == ProvisionalK)
  {
  }

  /** A head-to-head row is canonical when it is filed under its own
      (low, high) ids and low is not above high. */
  predicate IsCanonicalRow(key: (string, string), row: H2H) {
    && row.playerLowId == key.0 && row.playerHighId == key.1
    && !LexLess(key.1, key.0)
  }

  ghost predicate CanonicalTable(h2h: map<(string, string), H2H>) {
    forall key :: key in h2h ==> IsCanonicalRow(key, h2h[key])
  }

  /** `PairKey` never puts the larger id first. */
  lemma PairKeyOrdered(xId: string, oId: string)
    ensures !LexLess(PairKey(xId, oId).1, PairKey(xId, oId).0)
    ensures PairKey(xId, oId) == (xId, oId) || PairKey(xId, oId) == (oId, xId)
  {
    LexLessTrichotomy(xId, oId);
  }

  /** The upsert keeps every row filed under its canonical key. */
  lemma UpsertKeepsCanonical(h2h: map<(string, string), H2H>, players: Seats, winner: Option<Symbol>, now: int)
    requires CanonicalTable(h2h)
    ensures CanonicalTable(UpsertHeadToHead(h2h, players, winner, now))
  {
    if players.x.Some? && players.o.Some? {
      PairKeyOrdered(players.x.value, players.o.value);
    }
  }
}
