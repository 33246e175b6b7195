/** Player documents: the display-name rules, the player list's page size,
    fetching several players at once, and the guest-session check. The
    players table is a map from document id to document. */
module Players {
  import opened Wrappers
  import opened Text
  import opened Schema
  import opened Lists

  const MaxDisplayName := 30
  const NameRule := "Name must be 1-30 characters"
  const PlayerMissing := "Player not found."

  /** The name `createGuestPlayer` stores: the supplied name trimmed, or the
      generated one when nothing but white space was supplied. */
  function ChooseDisplayName(supplied: Option<string>, generated: string): (name: string)
    ensures supplied.Some? && Trim(supplied.value) != "" ==> name == Trim(supplied.value)
    ensures supplied.None? || Trim(supplied.value) == "" ==> name == generated
    // Unless the generated name is used, the stored name is non-blank and
    // has no white space left to trim.
    ensures name == generated || (name != "" && Trim(name) == name)
  {
    if supplied.Some? && Trim(supplied.value) != "" then
      TrimIdempotent(supplied.value);
      Trim(supplied.value)
    else generated
  }

  /** A name chosen from a supplied one that fits the 30-unit limit is one
      `updateDisplayName` would accept and store unchanged. */
  lemma ChosenNameAccepted(players: map<string, Player>, playerId: string, supplied: string, generated: string)
    requires playerId in players
    requires Trim(supplied) != "" && Utf16Length(Trim(supplied)) <= MaxDisplayName
    ensures var name := ChooseDisplayName(Some(supplied), generated);
      UpdateDisplayName(players, playerId, name)
      == Success((players[playerId := players[playerId].(displayName := name)], name))
  {
  }

  /** `updateDisplayName`: the trimmed name must be non-empty and at most
      30 UTF-16 code units long, as `length` counts them; it is stored on
      the player and returned. Patching a missing player
      fails. */
  function UpdateDisplayName(players: map<string, Player>, playerId: string, displayName: string)
    : (r: Result<(map<string, Player>, string), string>)
    ensures r == Failure(NameRule) <==> Trim(displayName) == "" || Utf16Length(Trim(displayName)) > MaxDisplayName
    ensures r.Failure? <==> r == Failure(NameRule) || playerId !in players
    ensures r.Success? ==>
      var (players', name) := r.value;
      && name == Trim(displayName) && name != "" && Utf16Length(name) <= MaxDisplayName
      && playerId in players' && players'[playerId] == players[playerId].(displayName := name)
      && players'.Keys == players.Keys
      && forall p :: p in players && p != playerId ==> players'[p] == players[p]
  {
    var trimmed := Trim(displayName);
    if trimmed == "" || Utf16Length(trimmed) > MaxDisplayName then Failure(NameRule)
    else if playerId !in players then Failure(PlayerMissing)
    else Success((players[playerId := players[playerId].(displayName := trimmed)], trimmed))
  }

  /** Setting the name a successful update returned changes nothing more:
      a stored name is already in its final form. */
  lemma UpdateDisplayNameIdempotent(players: map<string, Player>, playerId: string, displayName: string)
    requires UpdateDisplayName(players, playerId, displayName).Success?
    ensures var (players', name) := UpdateDisplayName(players, playerId, displayName).value;
      UpdateDisplayName(players', playerId, name) == Success((players', name))
  {
    var trimmed := Trim(displayName);
    var players' := players[playerId := players[playerId].(displayName := trimmed)];
    assert UpdateDisplayName(players, playerId, displayName) == Success((players', trimmed));
    TrimIdempotent(displayName);
    StoredNameIsFinal(players', playerId, trimmed);
  }

  /** Renaming a player to the name already stored, when that name is
      valid and trimmed, returns the table as it was. */
  lemma StoredNameIsFinal(players: map<string, Player>, playerId: string, name: string)
    requires playerId in players && players[playerId].displayName == name
    requires Trim(name) == name && name != "" && Utf16Length(name) <= MaxDisplayName
    ensures UpdateDisplayName(players, playerId, name) == Success((players, name))
  {
    var same := players[playerId := players[playerId].(displayName := name)];
    assert same == players;
    assert !(Trim(name) == "" || Utf16Length(Trim(name)) > MaxDisplayName);
    assert UpdateDisplayName(players, playerId, name) == Success((same, name));
  }

  /** Sixteen characters beyond the Basic Multilingual Plane are 32 UTF-16
      code units, so the name is refused although it has only sixteen
      characters; fifteen of them are accepted. */
  lemma AstralNameLength(players: map<string, Player>, playerId: string)
    requires playerId in players
    ensures UpdateDisplayName(players, playerId, seq(16, _ => '\U{1F600}')) == Failure(NameRule)
    ensures UpdateDisplayName(players, playerId, seq(15, _ => '\U{1F600}')).Success?
  {
    var long := seq(16, _ => '\U{1F600}');
    var short := seq(15, _ => '\U{1F600}');
    assert Trim(long) == long by {
      assert !IsTrimmable(long[0]) && !IsTrimmable(long[|long| - 1]);
      assert TrimStart(long) == long;
      assert TrimEnd(long) == long;
    }
    assert Trim(short) == short by {
      assert !IsTrimmable(short[0]) && !IsTrimmable(short[|short| - 1]);
      assert TrimStart(short) == short;
      assert TrimEnd(short) == short;
    }
  }

  const PlayersDefaultLimit := 20

  /** The number of players `listPlayers` takes. */
  function PlayersLimit(arg: Option<int>): (n: int)
    ensures 1 <= n <= 100
    ensures arg.None? ==> n == PlayersDefaultLimit
    ensures arg.Some? && 1 <= arg.value <= 100 ==> n == arg.value
    ensures arg.Some? && arg.value < 1 ==> n == 1
    ensures arg.Some? && arg.value > 100 ==> n == 100
  {
    ClampLimit(arg, PlayersDefaultLimit)
  }

  /** The distinct ids of `ids` that name a stored player, in order of
      first appearance. */
  function FoundIds(players: map<string, Player>, ids: seq<string>): (r: seq<string>)
    ensures forall id :: id in r <==> id in ids && id in players
    ensures NoDups(r) && |r| <= |ids|
  {
    KeepStored(players, Dedup(ids))
  }

  function KeepStored(players: map<string, Player>, ids: seq<string>): (r: seq<string>)
    requires NoDups(ids)
    ensures forall id :: id in r <==> id in ids && id in players
    ensures NoDups(r) && |r| <= |ids|
  {
    if ids == [] then []
    else
      var rest := KeepStored(players, ids[1..]);
      assert ids[0] !in ids[1..];
      if ids[0] in players then [ids[0]] + rest else rest
  }

  /** `getPlayersByIds`: each requested player once, missing ones dropped. */
  function GetPlayersByIds(players: map<string, Player>, ids: seq<string>): (r: seq<Player>)
    ensures |r| == |FoundIds(players, ids)| <= |ids|
    ensures forall k :: 0 <= k < |r| ==> r[k] == players[FoundIds(players, ids)[k]]
    ensures forall id :: id in ids && id in players ==> players[id] in r
  {
    var found := FoundIds(players, ids);
    var r := seq(|found|, k requires 0 <= k < |found| => players[found[k]]);
    assert forall id :: id in ids && id in players ==> id in found;
    assert forall k :: 0 <= k < |found| ==> r[k] == players[found[k]];
    r
  }

  /** The outcome of `validateGuestSession`. */
  datatype SessionCheck = SessionRejected | SessionOk(player: Player)

  /** A guest secret is accepted when the player exists, has a non-empty
      secret, and it equals the one supplied. */
  predicate SecretMatches(players: map<string, Player>, playerId: string, guestSecret: string) {
    && playerId in players
    && players[playerId].guestSecret.Some?
    && players[playerId].guestSecret.value != ""
    && players[playerId].guestSecret.value == guestSecret
  }

  /** `validateGuestSession`: a rejected check changes nothing; an accepted
      one records the visit and returns the updated player. */
  function ValidateGuestSession(players: map<string, Player>, playerId: string, guestSecret: string, now: int)
    : (r: (SessionCheck, map<string, Player>))
    ensures r.0.SessionRejected? <==> !SecretMatches(players, playerId, guestSecret)
    ensures r.0.SessionRejected? ==> r.1 == players
    ensures r.0.SessionOk? ==>
      && r.0.player == players[playerId].(lastSeenAt := Some(now))
      && r.1 == players[playerId := r.0.player]
  {
    if !SecretMatches(players, playerId, guestSecret) then (SessionRejected, players)
    else
      var player := players[playerId].(lastSeenAt := Some(now));
      (SessionOk(player), players[playerId := player])
  }

  /** An accepted session stays valid: the check only moves `lastSeenAt`,
      so the same secret is accepted again later. */
  lemma SessionStaysValid(players: map<string, Player>, playerId: string, guestSecret: string, now: int, later: int)
    requires ValidateGuestSession(players, playerId, guestSecret, now).0.SessionOk?
    ensures var players' := ValidateGuestSession(players, playerId, guestSecret, now).1;
      ValidateGuestSession(players', playerId, guestSecret, later).0.SessionOk?
  {
  }
}
