/** WebAuthn bookkeeping: single-use challenges that expire five minutes
    after they are issued, and credentials bound to one player each. The
    cryptographic verification itself happens elsewhere. */
module Passkeys {
  import opened Wrappers
  import opened Lists
  import opened Schema

  /** The tables these mutations touch. */
  datatype PasskeyStore = PasskeyStore(
    challenges: seq<Challenge>,
    credentials: seq<Credential>,
    players: map<string, Player>)

  const ChallengeTtlMs := 5 * 60 * 1000

  /** `createChallenge`: records the challenge, unused, expiring
      `ChallengeTtlMs` after `now`, and returns the expiry. */
  function CreateChallenge(ps: PasskeyStore, challenge: string, flow: Flow, playerId: Option<string>, now: int)
    : (r: (int, PasskeyStore))
    ensures r.0 == now + 300000
    ensures r.1 == ps.(challenges := ps.challenges + [Challenge(challenge, flow, playerId, r.0, None, now)])
  {
    var expiresAt := now + ChallengeTtlMs;
    (expiresAt, ps.(challenges := ps.challenges + [Challenge(challenge, flow, playerId, expiresAt, None, now)]))
  }

  /** The position of the first record for `challenge`, as the
      `by_challenge` index returns it. */
  function FindChallenge(cs: seq<Challenge>, challenge: string): (r: Option<nat>)
    ensures r.Some? ==> r.value < |cs| && cs[r.value].challenge == challenge
    ensures r.Some? ==> forall j :: 0 <= j < r.value ==> cs[j].challenge != challenge
    ensures r.None? ==> forall j :: 0 <= j < |cs| ==> cs[j].challenge != challenge
  {
    FirstWith(cs, (c: Challenge) => c.challenge, challenge)
  }

  /** `record.usedAt` is truthy: set and not zero. */
  predicate IsUsed(c: Challenge) {
    c.usedAt.Some? && c.usedAt.value != 0
  }

  /** The caller named a player: the id is present and not empty. */
  predicate NamesPlayer(playerId: Option<string>) {
    playerId.Some? && playerId.value != ""
  }

  datatype ConsumeFailure = ChallengeNotFound | ChallengeAlreadyUsed | ChallengeExpired | ChallengePlayerMismatch

  datatype ConsumeReply = ConsumeRefused(reason: ConsumeFailure) | ConsumeOk(playerId: Option<string>)

  /** `consumeChallenge`. The checks run in order: no record for this
      challenge and flow, already used, expired (strictly past the expiry),
      issued to another player than the one named. A refusal changes
      nothing; success marks the record used at `now` and returns the
      player it was issued to. */
  function ConsumeChallenge(cs: seq<Challenge>, challenge: string, flow: Flow, playerId: Option<string>, now: int)
    : (r: (ConsumeReply, seq<Challenge>))
    ensures r.0.ConsumeRefused? ==> r.1 == cs
    ensures var k := FindChallenge(cs, challenge);
      && (r.0 == ConsumeRefused(ChallengeNotFound) <==> k.None? || cs[k.value].flow != flow)
      && (r.0 == ConsumeRefused(ChallengeAlreadyUsed) <==> k.Some? && cs[k.value].flow == flow && IsUsed(cs[k.value]))
      && (r.0 == ConsumeRefused(ChallengeExpired) <==>
            k.Some? && cs[k.value].flow == flow && !IsUsed(cs[k.value]) && now > cs[k.value].expiresAt)
      && (r.0 == ConsumeRefused(ChallengePlayerMismatch) <==>
            && k.Some? && cs[k.value].flow == flow && !IsUsed(cs[k.value]) && now <= cs[k.value].expiresAt
            && NamesPlayer(playerId) && cs[k.value].playerId != playerId)
      && (r.0.ConsumeOk? ==>
            && r.0.playerId == cs[k.value].playerId
            && r.1 == cs[k.value := cs[k.value].(usedAt := Some(now))])
  {
    match FindChallenge(cs, challenge)
    case None => (ConsumeRefused(ChallengeNotFound), cs)
    case Some(k) =>
      var record := cs[k];
      if record.flow != flow then (ConsumeRefused(ChallengeNotFound), cs)
      else if IsUsed(record) then (ConsumeRefused(ChallengeAlreadyUsed), cs)
      else if now > record.expiresAt then (ConsumeRefused(ChallengeExpired), cs)
      else if NamesPlayer(playerId) && record.playerId != playerId then (ConsumeRefused(ChallengePlayerMismatch), cs)
      else (ConsumeOk(record.playerId), cs[k := record.(usedAt := Some(now))])
  }

  /** A challenge is good for one use: once consumed (at any instant but
      the epoch itself, which would read as unused), every later attempt
      is refused. */
  lemma ConsumeOnlyOnce(cs: seq<Challenge>, challenge: string, flow: Flow, playerId: Option<string>, now: int,
                        flow': Flow, playerId': Option<string>, now': int)
    requires ConsumeChallenge(cs, challenge, flow, playerId, now).0.ConsumeOk?
    requires now != 0
    ensures var cs' := ConsumeChallenge(cs, challenge, flow, playerId, now).1;
      ConsumeChallenge(cs', challenge, flow', playerId', now').0.ConsumeRefused?
  {
    var k := FindChallenge(cs, challenge).value;
    var cs' := ConsumeChallenge(cs, challenge, flow, playerId, now).1;
    assert FindChallenge(cs', challenge) == Some(k) by {
      assert cs'[k].challenge == challenge;
      assert forall j :: 0 <= j < k ==> cs'[j] == cs[j];
      assert forall j :: 0 <= j < k ==> cs'[j].challenge != challenge;
    }
    assert IsUsed(cs'[k]);
  }

  /** A newly issued challenge is accepted within its lifetime, for its
      flow and for the player it was issued to. */
  lemma FreshChallengeAccepted(ps: PasskeyStore, challenge: string, flow: Flow, playerId: Option<string>,
                               now: int, later: int)
    requires forall j :: 0 <= j < |ps.challenges| ==> ps.challenges[j].challenge != challenge
    requires now <= later <= now + ChallengeTtlMs
    ensures var ps' := CreateChallenge(ps, challenge, flow, playerId, now).1;
      ConsumeChallenge(ps'.challenges, challenge, flow, playerId, later).0 == ConsumeOk(playerId)
  {
    var ps' := CreateChallenge(ps, challenge, flow, playerId, now).1;
    assert FindChallenge(ps'.challenges, challenge) == Some(|ps.challenges|) by {
      assert ps'.challenges[|ps.challenges|].challenge == challenge;
      assert forall j :: 0 <= j < |ps.challenges| ==> ps'.challenges[j] == ps.challenges[j];
    }
  }

  // ---------------------------------------------------------------------
  // Credentials

  /** The position of the first credential with this id. */
  function FindCredential(creds: seq<Credential>, credentialID: string): (r: Option<nat>)
    ensures r.Some? ==> r.value < |creds| && creds[r.value].credentialID == credentialID
    ensures r.Some? ==> forall j :: 0 <= j < r.value ==> creds[j].credentialID != credentialID
    ensures r.None? ==> forall j :: 0 <= j < |creds| ==> creds[j].credentialID != credentialID
  {
    FirstWith(creds, (c: Credential) => c.credentialID, credentialID)
  }

  /** The authenticator data a registration supplies. */
  datatype KeyData = KeyData(
    publicKey: string,
    counter: int,
    deviceType: DeviceType,
    backedUp: bool,
    transports: Option<seq<string>>)

  datatype UpsertReply = CredentialAlreadyBound | CredentialSaved | UpsertThrown

  /** The credential with its key data replaced. */
  function WithKey(c: Credential, key: KeyData): Credential {
    c.(publicKey := key.publicKey, counter := key.counter, deviceType := key.deviceType,
       backedUp := key.backedUp, transports := key.transports)
  }

  /** `upsertCredential`: a credential bound to another player is refused;
      otherwise the credential is updated or inserted for this player and
      the player becomes a secured identity. Patching a missing player
      throws, and the whole mutation is rolled back. */
  function UpsertCredential(ps: PasskeyStore, playerId: string, credentialID: string, key: KeyData, now: int)
    : (r: (UpsertReply, PasskeyStore))
    ensures var k := FindCredential(ps.credentials, credentialID);
      r.0 == CredentialAlreadyBound <==> k.Some? && ps.credentials[k.value].playerId != playerId
    ensures r.0 == UpsertThrown <==> r.0 != CredentialAlreadyBound && playerId !in ps.players
    ensures !r.0.CredentialSaved? ==> r.1 == ps
    ensures r.0.CredentialSaved? ==>
      var k := FindCredential(ps.credentials, credentialID);
      && r.1.challenges == ps.challenges
      && playerId in ps.players
      && r.1.players == ps.players[playerId := ps.players[playerId].(identityTier := Some(Secured), lastSeenAt := Some(now))]
      && (k.Some? ==> r.1.credentials == ps.credentials[k.value := WithKey(ps.credentials[k.value], key)])
      && (k.None? ==> r.1.credentials == ps.credentials + [Credential(playerId, credentialID, key.publicKey, key.counter,
                                                                      key.deviceType, key.backedUp, key.transports,
                                                                      now, Some(now))])
  {
    var existing := FindCredential(ps.credentials, credentialID);
    if existing.Some? && ps.credentials[existing.value].playerId != playerId then (CredentialAlreadyBound, ps)
    else if playerId !in ps.players then (UpsertThrown, ps)
    else
      var credentials :=
        if existing.Some? then ps.credentials[existing.value := WithKey(ps.credentials[existing.value], key)]
        else ps.credentials + [Credential(playerId, credentialID, key.publicKey, key.counter, key.deviceType,
                                          key.backedUp, key.transports, now, Some(now))];
      var player := ps.players[playerId].(identityTier := Some(Secured), lastSeenAt := Some(now));
      (CredentialSaved, ps.(credentials := credentials, players := ps.players[playerId := player]))
  }

  /** A saved credential stays with its player: afterwards the id resolves
      to a credential of that player, and any other player's attempt to
      bind it is refused. */
  lemma BindingIsPermanent(ps: PasskeyStore, playerId: string, credentialID: string, key: KeyData, now: int,
                           other: string, key': KeyData, now': int)
    requires UpsertCredential(ps, playerId, credentialID, key, now).0 == CredentialSaved
    requires other != playerId
    ensures var ps' := UpsertCredential(ps, playerId, credentialID, key, now).1;
      && FindCredential(ps'.credentials, credentialID).Some?
      && ps'.credentials[FindCredential(ps'.credentials, credentialID).value].playerId == playerId
      && UpsertCredential(ps', other, credentialID, key', now').0 == CredentialAlreadyBound
  {
    var ps' := UpsertCredential(ps, playerId, credentialID, key, now).1;
    var k := FindCredential(ps.credentials, credentialID);
    if k.Some? {
      assert FindCredential(ps'.credentials, credentialID) == k by {
        assert ps'.credentials[k.value].credentialID == credentialID;
        assert forall j :: 0 <= j < k.value ==> ps'.credentials[j] == ps.credentials[j];
        assert forall j :: 0 <= j < k.value ==> ps'.credentials[j].credentialID != credentialID;
      }
    } else {
      var n := |ps.credentials|;
      assert FindCredential(ps'.credentials, credentialID) == Some(n) by {
        assert ps'.credentials[n].credentialID == credentialID;
        assert forall j :: 0 <= j < n ==> ps'.credentials[j] == ps.credentials[j];
      }
    }
  }
}
