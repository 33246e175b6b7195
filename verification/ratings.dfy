/** The rating read side: the leaderboard's page size, the head-to-head
    lookup, and the rating events of one round as the result screen shows
    them. */
module Ratings {
  import opened Wrappers
  import opened Text
  import opened Schema
  import opened Finalizer
  import opened Lists

  const LeaderboardDefaultLimit := 25

  /** The number of ratings `getLeaderboard` takes. */
  function LeaderboardLimit(arg: Option<int>): (n: int)
    ensures 1 <= n <= 100
    ensures arg.None? ==> n == LeaderboardDefaultLimit
    ensures arg.Some? && 1 <= arg.value <= 100 ==> n == arg.value
    ensures arg.Some? && arg.value < 1 ==> n == 1
    ensures arg.Some? && arg.value > 100 ==> n == 100
  {
    ClampLimit(arg, LeaderboardDefaultLimit)
  }

  // ---------------------------------------------------------------------
  // Head-to-head

  /** `[a, b].sort()`: the two ids in ascending string order. */
  function SortedPair(a: string, b: string): (string, string) {
    if LexLess(b, a) then (b, a) else (a, b)
  }

  /** The lookup sorts the two ids exactly as the finalizer files the row,
      whichever order the ids are given in. */
  lemma SortedPairIsPairKey(a: string, b: string)
    ensures SortedPair(a, b) == PairKey(a, b)
    ensures SortedPair(a, b) == SortedPair(b, a)
  {
    LexLessTrichotomy(a, b);
  }

  /** `getHeadToHead`: the row stored under the sorted pair, if any. */
  function GetHeadToHead(h2h: map<(string, string), H2H>, a: string, b: string): (r: Option<H2H>)
    ensures r.Some? <==> SortedPair(a, b) in h2h
    ensures r.Some? ==> r.value == h2h[SortedPair(a, b)]
  {
    var key := SortedPair(a, b);
    if key in h2h then Some(h2h[key]) else None
  }

  /** Once a round between two players is scored, both orders of the pair
      find the row the finalizer wrote, and that row counts one more game. */
  lemma HeadToHeadAfterFinalize(st: Store, m: MatchRecord, status: GameTypes.Status, winner: Option<GameTypes.Symbol>,
                                now: int, elo: EloRule)
    requires ShouldScore(st, m, status, winner)
    ensures var r := FinalizeCompetitiveResult(st, m, status, winner, now, elo);
      var x := m.players.x.value;
      var o := m.players.o.value;
      var row := GetHeadToHead(r.h2hStats, x, o);
      var before := GetHeadToHead(st.h2hStats, x, o);
      && row.Some? && row == GetHeadToHead(r.h2hStats, o, x)
      && row.value.lowWins + row.value.highWins + row.value.draws
         == (if before.Some? then before.value.lowWins + before.value.highWins + before.value.draws else 0) + 1
  {
    SortedPairIsPairKey(m.players.x.value, m.players.o.value);
  }

  // ---------------------------------------------------------------------
  // One round's rating events

  /** The events of one round of one match, in stored order. */
  function RoundEvents(events: seq<RatingEvent>, matchId: string, roundNumber: int): (r: seq<RatingEvent>)
    ensures |r| == RoundEventCount(events, matchId, roundNumber)
    ensures forall i :: 0 <= i < |r| ==> IsRoundEvent(r[i], matchId, roundNumber) && r[i] in events
    ensures forall e :: e in events && IsRoundEvent(e, matchId, roundNumber) ==> e in r
  {
    if events == [] then []
    else
      var n := |events| - 1;
      var rest := RoundEvents(events[..n], matchId, roundNumber);
      assert events == events[..n] + [events[n]];
      if IsRoundEvent(events[n], matchId, roundNumber) then rest + [events[n]] else rest
  }

  /** Ascending by creation time. */
  predicate SortedByCreation(s: seq<RatingEvent>) {
    forall i, j :: 0 <= i < j < |s| ==> s[i].createdAt <= s[j].createdAt
  }

  /** `[e]` when `e` was created at instant `t`, else nothing. */
  function At(e: RatingEvent, t: int): seq<RatingEvent> {
    if e.createdAt == t then [e] else []
  }

  /** The events created at instant `t`, in order. */
  function CreatedAt(s: seq<RatingEvent>, t: int): seq<RatingEvent> {
    if s == [] then [] else CreatedAt(s[..|s| - 1], t) + At(s[|s| - 1], t)
  }

  /** Inserts `e` after every element created no later than it. */
  function Insert(s: seq<RatingEvent>, e: RatingEvent): seq<RatingEvent> {
    if s == [] || s[|s| - 1].createdAt <= e.createdAt then s + [e]
    else Insert(s[..|s| - 1], e) + [s[|s| - 1]]
  }

  /** Inserting adds exactly the one event. */
  lemma {:induction false} InsertMultiset(s: seq<RatingEvent>, e: RatingEvent)
    ensures multiset(Insert(s, e)) == multiset(s) + multiset{e}
  {
    if s != [] && s[|s| - 1].createdAt > e.createdAt {
      var n := |s| - 1;
      InsertMultiset(s[..n], e);
      assert s == s[..n] + [s[n]];
    }
  }

  /** `events.sort((a, b) => a.createdAt - b.createdAt)`: a stable
      insertion sort, which keeps every event exactly once. */
  function SortByCreation(s: seq<RatingEvent>): (r: seq<RatingEvent>)
    ensures multiset(r) == multiset(s)
    ensures |r| == |s|
  {
    if s == [] then []
    else
      var n := |s| - 1;
      assert s == s[..n] + [s[n]];
      InsertMultiset(SortByCreation(s[..n]), s[n]);
      Insert(SortByCreation(s[..n]), s[n])
  }

  /** Inserting into a sorted sequence keeps it sorted. */
  lemma {:induction false} InsertSorted(s: seq<RatingEvent>, e: RatingEvent)
    requires SortedByCreation(s)
    ensures SortedByCreation(Insert(s, e))
  {
    if s == [] || s[|s| - 1].createdAt <= e.createdAt {
      SortedSnoc(s, e);
    } else {
      var n := |s| - 1;
      var p := Insert(s[..n], e);
      InsertSorted(s[..n], e);
      InsertBounded(s[..n], e, s[n].createdAt);
      SortedSnoc(p, s[n]);
      assert Insert(s, e) == p + [s[n]];
    }
  }

  /** Appending an event no earlier than every event keeps the order. */
  lemma SortedSnoc(s: seq<RatingEvent>, e: RatingEvent)
    requires SortedByCreation(s)
    requires forall i :: 0 <= i < |s| ==> s[i].createdAt <= e.createdAt
    ensures SortedByCreation(s + [e])
  {
  }

  /** Inserting an event no later than `b` among events no later than `b`
      leaves every event no later than `b`. */
  lemma {:induction false} InsertBounded(s: seq<RatingEvent>, e: RatingEvent, b: int)
    requires forall i :: 0 <= i < |s| ==> s[i].createdAt <= b
    requires e.createdAt <= b
    ensures forall i :: 0 <= i < |Insert(s, e)| ==> Insert(s, e)[i].createdAt <= b
  {
    if s != [] && s[|s| - 1].createdAt > e.createdAt {
      var n := |s| - 1;
      InsertBounded(s[..n], e, b);
      assert Insert(s, e) == Insert(s[..n], e) + [s[n]];
    }
  }

  /** The sort orders events by creation time. */
  lemma {:induction false} SortSorted(s: seq<RatingEvent>)
    ensures SortedByCreation(SortByCreation(s))
  {
    if s != [] {
      SortSorted(s[..|s| - 1]);
      InsertSorted(SortByCreation(s[..|s| - 1]), s[|s| - 1]);
    }
  }

  lemma CreatedAtAppend(s: seq<RatingEvent>, e: RatingEvent, t: int)
    ensures CreatedAt(s + [e], t) == CreatedAt(s, t) + At(e, t)
  {
    assert (s + [e])[..|s|] == s;
  }

  lemma {:induction false} InsertStable(s: seq<RatingEvent>, e: RatingEvent, t: int)
    ensures CreatedAt(Insert(s, e), t) == CreatedAt(s, t) + At(e, t)
  {
    if s == [] || s[|s| - 1].createdAt <= e.createdAt {
      CreatedAtAppend(s, e, t);
    } else {
      var n := |s| - 1;
      var init := s[..n];
      var p := Insert(init, e);
      assert Insert(s, e) == p + [s[n]];
      InsertStable(init, e, t);
      CreatedAtAppend(p, s[n], t);
      assert CreatedAt(s, t) == CreatedAt(init, t) + At(s[n], t);
      assert At(e, t) == [] || At(s[n], t) == [];
      ConcatSwap(CreatedAt(init, t), At(e, t), At(s[n], t));
    }
  }

  /** Appending two pieces, one of them empty, in either order. */
  lemma ConcatSwap(a: seq<RatingEvent>, b: seq<RatingEvent>, c: seq<RatingEvent>)
    requires b == [] || c == []
    ensures a + b + c == a + c + b
  {
  }

  /** The sort is stable: events created at the same instant keep their
      stored order. With sortedness and the multiset, this pins the result
      down completely. */
  lemma {:induction false} SortStable(s: seq<RatingEvent>, t: int)
    ensures CreatedAt(SortByCreation(s), t) == CreatedAt(s, t)
  {
    if s != [] {
      var n := |s| - 1;
      var init := s[..n];
      var sorted := SortByCreation(init);
      assert SortByCreation(s) == Insert(sorted, s[n]);
      SortStable(init, t);
      InsertStable(sorted, s[n], t);
      assert CreatedAt(s, t) == CreatedAt(init, t) + At(s[n], t);
    }
  }

  /** The fields of an event the result screen shows. */
  datatype EventView = EventView(playerId: string, delta: int, beforeElo: int, afterElo: int)

  function View(e: RatingEvent): EventView {
    EventView(e.playerId, e.delta, e.beforeElo, e.afterElo)
  }

  function Views(s: seq<RatingEvent>): (r: seq<EventView>)
    ensures |r| == |s| && forall i :: 0 <= i < |s| ==> r[i] == View(s[i])
  {
    if s == [] then [] else [View(s[0])] + Views(s[1..])
  }

  /** `normalized.find(...)?.delta`: the delta of the first event for
      `playerId`. */
  function FirstDeltaFor(views: seq<EventView>, playerId: string): (r: Option<int>)
    ensures r.None? <==> forall i :: 0 <= i < |views| ==> views[i].playerId != playerId
    ensures r.Some? ==>
      exists i :: 0 <= i < |views| && views[i].playerId == playerId && views[i].delta == r.value
                  && forall j :: 0 <= j < i ==> views[j].playerId != playerId
  {
    if views == [] then None
    else if views[0].playerId == playerId then Some(views[0].delta)
    else
      var r := FirstDeltaFor(views[1..], playerId);
      if r.Some? then
        var i :| 1 <= i + 1 <= |views| && 0 <= i < |views[1..]| && views[1..][i].playerId == playerId
                  && views[1..][i].delta == r.value && forall j :: 0 <= j < i ==> views[1..][j].playerId != playerId;
        assert views[i + 1].playerId == playerId;
        r
      else r
  }

  datatype RoundSummary = RoundSummary(roundNumber: int, events: seq<EventView>, myDelta: Option<int>)

  /** `getRoundRatingEvents`: the round's events ordered by creation time,
      and the caller's own delta when a player is given. */
  function GetRoundRatingEvents(events: seq<RatingEvent>, matchId: string, roundNumber: int,
                                playerId: Option<string>): (r: RoundSummary)
    ensures r.roundNumber == roundNumber
    ensures |r.events| == RoundEventCount(events, matchId, roundNumber)
    ensures r.events == Views(SortByCreation(RoundEvents(events, matchId, roundNumber)))
    ensures playerId.None? || playerId.value == "" ==> r.myDelta.None?
    // A named caller gets the delta of their first event in creation order, if any.
    ensures playerId.Some? && playerId.value != "" ==>
      && (r.myDelta.None? <==> forall i :: 0 <= i < |r.events| ==> r.events[i].playerId != playerId.value)
      && (r.myDelta.Some? ==>
            exists i :: && 0 <= i < |r.events| && r.events[i].playerId == playerId.value
                        && r.events[i].delta == r.myDelta.value
                        && forall j :: 0 <= j < i ==> r.events[j].playerId != playerId.value)
  {
    var normalized := Views(SortByCreation(RoundEvents(events, matchId, roundNumber)));
    var myDelta := if playerId.Some? && playerId.value != "" then FirstDeltaFor(normalized, playerId.value) else None;
    RoundSummary(roundNumber, normalized, myDelta)
  }

  /** A scored round has exactly two events on record. */
  lemma ScoredRoundCount(st: Store, m: MatchRecord, status: GameTypes.Status,
                         winner: Option<GameTypes.Symbol>, now: int, elo: EloRule)
    requires ShouldScore(st, m, status, winner)
    ensures var r := FinalizeCompetitiveResult(st, m, status, winner, now, elo);
      RoundEventCount(r.ratingEvents, m.id, m.roundNumber) == 2
  {
    var r := FinalizeCompetitiveResult(st, m, status, winner, now, elo);
    var n := |st.ratingEvents|;
    var added := r.ratingEvents[n..];
    assert r.ratingEvents == st.ratingEvents + added;
    RoundEventCountAppend(st.ratingEvents, added, m.id, m.roundNumber);
    assert added == [added[0]] + [added[1]];
    RoundEventCountAppend([added[0]], [added[1]], m.id, m.roundNumber);
    assert [added[0]][..0] == [] && [added[1]][..0] == [];
    assert RoundEventCount(st.ratingEvents, m.id, m.roundNumber) == 0;
  }

  /** Any event of the round is found by the player it belongs to. */
  lemma RoundEventFound(events: seq<RatingEvent>, e: RatingEvent, matchId: string, roundNumber: int)
    requires e in events && IsRoundEvent(e, matchId, roundNumber) && e.playerId != ""
    ensures GetRoundRatingEvents(events, matchId, roundNumber, Some(e.playerId)).myDelta.Some?
  {
    var round := RoundEvents(events, matchId, roundNumber);
    var sorted := SortByCreation(round);
    assert e in multiset(round);
    assert e in multiset(sorted);
    var k :| 0 <= k < |sorted| && sorted[k] == e;
    assert Views(sorted)[k].playerId == e.playerId;
  }

  /** A scored round shows exactly its two events, and the X player finds
      their own delta among them. */
  lemma ScoredRoundShowsTwoEvents(st: Store, m: MatchRecord, status: GameTypes.Status,
                                  winner: Option<GameTypes.Symbol>, now: int, elo: EloRule)
    requires ShouldScore(st, m, status, winner) && m.players.x.value != ""
    ensures var r := FinalizeCompetitiveResult(st, m, status, winner, now, elo);
      var summary := GetRoundRatingEvents(r.ratingEvents, m.id, m.roundNumber, m.players.x);
      |summary.events| == 2 && summary.myDelta.Some?
  {
    var r := FinalizeCompetitiveResult(st, m, status, winner, now, elo);
    ScoredRoundCount(st, m, status, winner, now, elo);
    var xEvent := r.ratingEvents[|st.ratingEvents|];
    RoundEventFound(r.ratingEvents, xEvent, m.id, m.roundNumber);
  }
}
