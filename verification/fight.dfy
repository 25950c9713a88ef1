/**
 The fight resolver: one call resolves one round of a bout. The player
 strikes first, then the opponent; a knockout ends the round at once; at the
 round limit the judges compare remaining health fractions. Every random
 draw of the game (hit or miss, damage, stamina jitter, the tie-break
 coin) is an explicit input, and every new event receives a caller-chosen
 fresh id.
 */
module FightResolver {
  import opened GameTypes

  const MAX_FIGHT_ROUNDS := 5

  /** Fitness a player needs to step into the ring. */
  const MIN_FIGHT_HEALTH := 30
  const MIN_FIGHT_STAMINA := 20

  /** Base stamina a strike costs each side, before the 0..2 jitter. */
  const PLAYER_STRIKE_COST := 7
  const OPPONENT_STRIKE_COST := 6

  /**
   The outcome of one strike draw. `Hit` carries the damage after stamina
   scaling and trait multipliers; that scaling floors a damage that was
   already at least 1, so a landed hit may deal 0.
   */
  datatype Strike = Miss | Hit(damage: nat)

  /** The uniform draw `Math.floor(Math.random() * 3)`. */
  type Jitter = j: nat | j <= 2

  /** All random draws one round may consume. */
  datatype RoundDraws = RoundDraws(
    playerStrike: Strike,
    playerJitter: Jitter,
    opponentStrike: Strike,
    opponentJitter: Jitter,
    tieBreakToPlayer: bool)   // `Math.random() > 0.45`

  /** The combat values threaded through the steps of one round. */
  datatype Combat = Combat(
    ph: int, ps: int, oh: int, os: int,
    over: bool, winner: Option<Side>, events: seq<EventData>)

  /** No event of the list concludes the fight. */
  predicate NoConclusion(es: seq<EventData>) {
    forall i :: 0 <= i < |es| ==> !es[i].Conclusion?
  }

  /**
   The list holds exactly one conclusion event, in last position, reporting
   `playerWon`.
   */
  predicate ConcludedBy(es: seq<EventData>, playerWon: bool) {
    |es| > 0 && NoConclusion(es[..|es| - 1]) && es[|es| - 1] == Conclusion(playerWon)
  }

  /** `prefix` is a prefix of `es` and at least one event was added. */
  predicate Extends(es: seq<EventData>, prefix: seq<EventData>) {
    |es| > |prefix| && es[..|prefix|] == prefix
  }

  /** The player's strike and its stamina cost. */
  function PlayerSubStep(c: Combat, strike: Strike, jitter: Jitter): (r: Combat)
    requires !c.over
    ensures c.oh >= 0 ==> 0 <= r.oh <= c.oh
    ensures strike.Miss? ==> r.oh == c.oh
    ensures strike.Hit? ==> r.oh == Max(0, c.oh - strike.damage)
    ensures r.ps == Max(0, c.ps - (PLAYER_STRIKE_COST + jitter))
    ensures Max(0, c.ps - 9) <= r.ps <= Max(0, c.ps - 7)
    ensures r.ps >= 0 && (c.ps >= 0 ==> r.ps <= c.ps)
    ensures r.ph == c.ph && r.os == c.os
    ensures r.over <==> strike.Hit? && strike.damage >= c.oh
    ensures r.over ==> r.winner == Some(PlayerSide)
    ensures !r.over ==> r.winner == c.winner
    ensures Extends(r.events, c.events)
    ensures NoConclusion(c.events) ==> NoConclusion(r.events)
  {
    var oh := match strike case Hit(dmg) => Max(0, c.oh - dmg) case Miss => c.oh;
    var ko := strike.Hit? && oh <= 0;
    var ps := Max(0, c.ps - (PLAYER_STRIKE_COST + jitter));
    var strikeEvent := match strike case Hit(dmg) => PlayerHit(dmg, oh) case Miss => PlayerMiss;
    var added := [strikeEvent] + (if ko then [OpponentKnockedOut] else []) + [PlayerStaminaUpdate(ps)];
    assert (c.events + added)[..|c.events|] == c.events;
    c.(oh := oh, ps := ps, over := ko,
       winner := if ko then Some(PlayerSide) else c.winner,
       events := c.events + added)
  }

  /** The opponent's strike and its stamina cost, mirroring the player's. */
  function OpponentSubStep(c: Combat, strike: Strike, jitter: Jitter): (r: Combat)
    requires !c.over
    ensures c.ph >= 0 ==> 0 <= r.ph <= c.ph
    ensures strike.Miss? ==> r.ph == c.ph
    ensures strike.Hit? ==> r.ph == Max(0, c.ph - strike.damage)
    ensures r.os == Max(0, c.os - (OPPONENT_STRIKE_COST + jitter))
    ensures Max(0, c.os - 8) <= r.os <= Max(0, c.os - 6)
    ensures r.os >= 0 && (c.os >= 0 ==> r.os <= c.os)
    ensures r.oh == c.oh && r.ps == c.ps
    ensures r.over <==> strike.Hit? && strike.damage >= c.ph
    ensures r.over ==> r.winner == Some(OpponentSide)
    ensures !r.over ==> r.winner == c.winner
    ensures Extends(r.events, c.events)
    ensures NoConclusion(c.events) ==> NoConclusion(r.events)
  {
    var ph := match strike case Hit(dmg) => Max(0, c.ph - dmg) case Miss => c.ph;
    var ko := strike.Hit? && ph <= 0;
    var os := Max(0, c.os - (OPPONENT_STRIKE_COST + jitter));
    var strikeEvent := match strike case Hit(dmg) => OpponentHit(dmg, ph) case Miss => OpponentMiss;
    var added := [strikeEvent] + (if ko then [PlayerKnockedOut] else []) + [OpponentStaminaUpdate(os)];
    assert (c.events + added)[..|c.events|] == c.events;
    c.(ph := ph, os := os, over := ko,
       winner := if ko then Some(OpponentSide) else c.winner,
       events := c.events + added)
  }

  /**
   The player's remaining health fraction `ph / pMax` is strictly larger than
   the opponent's `oh / oMax`, compared without division.
   */
  predicate AheadOnPoints(ph: int, pMax: int, oh: int, oMax: int) {
    ph * oMax > oh * pMax
  }

  /** The judges' decision: the larger health fraction wins, the coin breaks a tie. */
  function JudgesDecision(ph: int, pMax: int, oh: int, oMax: int, tieBreakToPlayer: bool): (w: Side)
    ensures AheadOnPoints(ph, pMax, oh, oMax) ==> w == PlayerSide
    ensures AheadOnPoints(oh, oMax, ph, pMax) ==> w == OpponentSide
    ensures ph * oMax == oh * pMax ==> (w == PlayerSide <==> tieBreakToPlayer)
  {
    if AheadOnPoints(ph, pMax, oh, oMax) then PlayerSide
    else if AheadOnPoints(oh, oMax, ph, pMax) then OpponentSide
    else if tieBreakToPlayer then PlayerSide
    else OpponentSide
  }

  /** The events carry the ids `nextId, nextId + 1, ...` in order. */
  predicate NumberedFrom(es: seq<FightEvent>, nextId: nat) {
    forall i :: 0 <= i < |es| ==> es[i].id == nextId + i
  }

  /** No event of the log concludes the fight. */
  predicate OpenLog(es: seq<FightEvent>) {
    forall i :: 0 <= i < |es| ==> !es[i].data.Conclusion?
  }

  /** The log ends in its one and only conclusion event, which reports `playerWon`. */
  predicate ConcludedLog(es: seq<FightEvent>, playerWon: bool) {
    && |es| > 0
    && es[|es| - 1].data == Conclusion(playerWon)
    && OpenLog(es[..|es| - 1])
  }

  /** Gives every event of a round its id, counting up from `nextId`. */
  function Stamp(es: seq<EventData>, nextId: nat): (r: seq<FightEvent>)
    ensures |r| == |es|
    ensures forall i :: 0 <= i < |r| ==> r[i] == FightEvent(nextId + i, es[i])
    ensures NumberedFrom(r, nextId)
    ensures NoConclusion(es) ==> OpenLog(r)
    ensures forall w :: ConcludedBy(es, w) ==> ConcludedLog(r, w)
  {
    assert forall w :: ConcludedBy(es, w) ==> ConcludedLog(seq(|es|, i requires 0 <= i < |es| => FightEvent(nextId + i, es[i])), w) by {
      var r := seq(|es|, i requires 0 <= i < |es| => FightEvent(nextId + i, es[i]));
      forall w | ConcludedBy(es, w) ensures ConcludedLog(r, w) {
        assert forall i :: 0 <= i < |es| - 1 ==> r[..|r| - 1][i] == r[i];
      }
    }
    seq(|es|, i requires 0 <= i < |es| => FightEvent(nextId + i, es[i]))
  }

  /** Whether a bout has both contestants and is still running. */
  predicate Running(fs: FightState) {
    fs.opponent.Some? && fs.snapshot.Some? && !fs.isFightOver
  }

  /** The round marker, preceded on the very first round by the fight's opening line. */
  function Opening(fs: FightState): (es: seq<EventData>)
    ensures |es| > 0 && es[|es| - 1] == RoundMarker(fs.currentRound)
    ensures NoConclusion(es)
    ensures |es| == 2 <==> fs.currentRound == 1 && |fs.roundLog| == 0 && |fs.transcript| == 0
  {
    if fs.currentRound == 1 && |fs.roundLog| == 0 && |fs.transcript| == 0
    then [FightStart, RoundMarker(fs.currentRound)]
    else [RoundMarker(fs.currentRound)]
  }

  /** Both strikes: the opponent only strikes back when not knocked out. */
  function Exchange(c: Combat, d: RoundDraws): (r: Combat)
    requires !c.over
    ensures c.ph >= 0 ==> 0 <= r.ph <= c.ph
    ensures c.oh >= 0 ==> 0 <= r.oh <= c.oh
    ensures r.ps == Max(0, c.ps - (PLAYER_STRIKE_COST + d.playerJitter))
    ensures Max(0, c.ps - 9) <= r.ps <= Max(0, c.ps - 7)
    ensures 0 <= r.ps && (c.ps >= 0 ==> r.ps <= c.ps)
    ensures c.os >= 0 ==> 0 <= r.os <= c.os
    ensures r.oh == match d.playerStrike case Hit(dmg) => Max(0, c.oh - dmg) case Miss => c.oh
    // a player knockout ends the exchange before the opponent can act
    ensures d.playerStrike.Hit? && d.playerStrike.damage >= c.oh ==>
      r.over && r.winner == Some(PlayerSide) && r.ph == c.ph && r.os == c.os
    ensures !(d.playerStrike.Hit? && d.playerStrike.damage >= c.oh) ==>
      && r.os == Max(0, c.os - (OPPONENT_STRIKE_COST + d.opponentJitter))
      && Max(0, c.os - 8) <= r.os <= Max(0, c.os - 6)
      && r.ph == match d.opponentStrike case Hit(dmg) => Max(0, c.ph - dmg) case Miss => c.ph
    // otherwise a blow that takes the player's health to 0 ends it for the opponent
    ensures !(d.playerStrike.Hit? && d.playerStrike.damage >= c.oh) && d.opponentStrike.Hit? && d.opponentStrike.damage >= c.ph ==>
      r.over && r.winner == Some(OpponentSide) && r.ph == 0
    ensures r.over <==>
      || (d.playerStrike.Hit? && d.playerStrike.damage >= c.oh)
      || (d.opponentStrike.Hit? && d.opponentStrike.damage >= c.ph)
    ensures r.over ==> r.winner.Some?
    ensures r.over ==> (r.oh == 0 && r.winner == Some(PlayerSide)) || (r.ph == 0 && r.winner == Some(OpponentSide))
    ensures !r.over ==> r.winner == c.winner
    ensures Extends(r.events, c.events)
    ensures NoConclusion(c.events) ==> NoConclusion(r.events)
  {
    var c1 := PlayerSubStep(c, d.playerStrike, d.playerJitter);
    if c1.over then c1 else OpponentSubStep(c1, d.opponentStrike, d.opponentJitter)
  }

  /** The judges' verdict when the round limit is reached without a knockout. */
  function Judge(c: Combat, round: int, pMax: int, oMax: int, tieBreakToPlayer: bool): (r: Combat)
    ensures c.over || round < MAX_FIGHT_ROUNDS ==> r == c
    ensures !c.over && round >= MAX_FIGHT_ROUNDS ==>
      && r.over
      && r.winner == Some(JudgesDecision(c.ph, pMax, c.oh, oMax, tieBreakToPlayer))
      && r.ph == c.ph && r.ps == c.ps && r.oh == c.oh && r.os == c.os
      && Extends(r.events, c.events)
      && (NoConclusion(c.events) ==> NoConclusion(r.events))
  {
    if !c.over && round >= MAX_FIGHT_ROUNDS then
      var w := JudgesDecision(c.ph, pMax, c.oh, oMax, tieBreakToPlayer);
      var es := c.events + [DecisionHeader, DecisionResult(w)];
      assert es[..|c.events|] == c.events;
      c.(over := true, winner := Some(w), events := es)
    else c
  }

  /** The final `fight_conclusion` event, appended only once the fight is over. */
  function Conclude(c: Combat): (r: Combat)
    requires NoConclusion(c.events)
    ensures r.(events := c.events) == c
    ensures c.over ==> ConcludedBy(r.events, c.winner == Some(PlayerSide)) && Extends(r.events, c.events)
    ensures !c.over ==> r == c
  {
    if c.over then
      var es := c.events + [Conclusion(c.winner == Some(PlayerSide))];
      assert es[..|es| - 1] == c.events;
      c.(events := es)
    else c
  }

  /** The player's blow lands hard enough to end the round before the opponent acts. */
  predicate KnockoutBlow(fs: FightState, d: RoundDraws) {
    d.playerStrike.Hit? && d.playerStrike.damage >= fs.opponentHealth
  }

  /**
   The player survives the opening blow and the opponent's answer takes the
   player's health to 0.
   */
  predicate OpponentKnockout(fs: FightState, d: RoundDraws) {
    !KnockoutBlow(fs, d) && d.opponentStrike.Hit? && d.opponentStrike.damage >= fs.playerHealth
  }

  /**
   The round ends the fight exactly on a knockout either way or at the round
   limit; before the limit a round without a knockout leaves the fight running.
   */
  predicate EndsFight(fs: FightState, d: RoundDraws, over: bool) {
    over <==> KnockoutBlow(fs, d) || OpponentKnockout(fs, d) || fs.currentRound >= MAX_FIGHT_ROUNDS
  }

  /**
   What the two blows of a round leave of both fighters' health and stamina:
   the player's blow and its stamina cost, then, unless it was a knockout,
   the opponent's.
   */
  predicate BlowsLanded(fs: FightState, d: RoundDraws, ph: int, ps: int, oh: int, os: int) {
    && ps == Max(0, fs.playerStamina - (PLAYER_STRIKE_COST + d.playerJitter))
    && oh == (match d.playerStrike case Hit(dmg) => Max(0, fs.opponentHealth - dmg) case Miss => fs.opponentHealth)
    && (KnockoutBlow(fs, d) ==> ph == fs.playerHealth && os == fs.opponentStamina)
    && (!KnockoutBlow(fs, d) ==>
          && os == Max(0, fs.opponentStamina - (OPPONENT_STRIKE_COST + d.opponentJitter))
          && ph == (match d.opponentStrike case Hit(dmg) => Max(0, fs.playerHealth - dmg) case Miss => fs.playerHealth))
  }

  /**
   The opening announcements, the exchange of blows and the status line of
   one round, before the judges and the conclusion.
   */
  function RoundExchange(fs: FightState, d: RoundDraws): (c: Combat)
    requires Running(fs)
    ensures fs.playerHealth >= 0 ==> 0 <= c.ph <= fs.playerHealth
    ensures fs.opponentHealth >= 0 ==> 0 <= c.oh <= fs.opponentHealth
    ensures BlowsLanded(fs, d, c.ph, c.ps, c.oh, c.os)
    ensures 0 <= c.ps && (fs.playerStamina >= 0 ==> c.ps <= fs.playerStamina)
    ensures fs.opponentStamina >= 0 ==> 0 <= c.os <= fs.opponentStamina
    ensures KnockoutBlow(fs, d) ==> c.over && c.winner == Some(PlayerSide)
    ensures OpponentKnockout(fs, d) ==> c.over && c.winner == Some(OpponentSide) && c.ph == 0
    ensures c.over <==> KnockoutBlow(fs, d) || OpponentKnockout(fs, d)
    ensures c.over ==> c.winner.Some? && (c.ph == 0 || c.oh == 0)
    ensures !c.over ==> c.winner == fs.winner
    ensures |c.events| >= |Opening(fs)| && c.events[|Opening(fs)| - 1] == RoundMarker(fs.currentRound)
    ensures NoConclusion(c.events)
  {
    var opening := Opening(fs);
    var c0 := Combat(fs.playerHealth, fs.playerStamina, fs.opponentHealth, fs.opponentStamina,
                     false, fs.winner, opening);
    var c1 := Exchange(c0, d);
    assert c0.events[|opening| - 1] == RoundMarker(fs.currentRound);
    c1.(events := c1.events + [Status(c1.ph, c1.ps, c1.oh, c1.os)])
  }

  /** The events and combat values of one round, before stamping. */
  function RoundCombat(fs: FightState, d: RoundDraws): (c: Combat)
    requires Running(fs)
    ensures fs.playerHealth >= 0 ==> 0 <= c.ph <= fs.playerHealth
    ensures fs.opponentHealth >= 0 ==> 0 <= c.oh <= fs.opponentHealth
    ensures BlowsLanded(fs, d, c.ph, c.ps, c.oh, c.os)
    ensures fs.opponentStamina >= 0 ==> 0 <= c.os <= fs.opponentStamina
    ensures Max(0, fs.playerStamina - 9) <= c.ps <= Max(0, fs.playerStamina - 7)
    ensures !KnockoutBlow(fs, d) ==> Max(0, fs.opponentStamina - 8) <= c.os <= Max(0, fs.opponentStamina - 6)
    // a player knockout ends the round before the opponent can act
    ensures KnockoutBlow(fs, d) ==> c.over && c.winner == Some(PlayerSide) && c.oh == 0
    // an opponent's blow that takes the player's health to 0 ends the fight for the opponent
    ensures OpponentKnockout(fs, d) ==> c.over && c.winner == Some(OpponentSide) && c.ph == 0
    // the fight ends by a knockout or, failing one, at the round limit
    ensures EndsFight(fs, d, c.over)
    ensures c.over ==> c.winner.Some?
    ensures !c.over ==> c.winner == fs.winner && fs.currentRound < MAX_FIGHT_ROUNDS
    // a decision without knockout goes to the larger health fraction
    ensures c.over && c.ph > 0 && c.oh > 0 ==>
      c.winner.value == JudgesDecision(c.ph, fs.snapshot.value.health, c.oh,
                                       fs.opponent.value.stats.health, d.tieBreakToPlayer)
    // the round is announced first, and an ended fight is concluded last
    ensures |c.events| > 0
    ensures RoundMarker(fs.currentRound) in c.events
    ensures c.over ==> ConcludedBy(c.events, c.winner == Some(PlayerSide))
    ensures !c.over ==> NoConclusion(c.events)
  {
    var c2 := RoundExchange(fs, d);
    var c3 := Judge(c2, fs.currentRound, fs.snapshot.value.health, fs.opponent.value.stats.health, d.tieBreakToPlayer);
    assert c3.events[|Opening(fs)| - 1] == RoundMarker(fs.currentRound);
    Conclude(c3)
  }

  /**
   One pass of the resolver (`_processSingleFightRound`). A bout without
   contestants, or one already over, is returned unchanged. Otherwise the
   round's events, with ids `nextId, nextId + 1, ...`, are appended after the
   events still queued, and the display flags mark a round in progress.
   */
  function ResolveRound(fs: FightState, d: RoundDraws, nextId: nat): (r: FightState)
    ensures !Running(fs) ==> r == fs
    ensures Running(fs) ==>
      && r.opponent == fs.opponent && r.snapshot == fs.snapshot
      && r.currentRound == fs.currentRound && r.transcript == fs.transcript
      && |r.roundLog| > |fs.roundLog| && r.roundLog[..|fs.roundLog|] == fs.roundLog
      && NumberedFrom(r.roundLog[|fs.roundLog|..], nextId)
      && r.isProcessingRoundEvents && !r.uiReadyForNextEvent
    // the blows of the round, as the draws decide them
    ensures Running(fs) ==>
      BlowsLanded(fs, d, r.playerHealth, r.playerStamina, r.opponentHealth, r.opponentStamina)
    // health and stamina stay at or above 0 and never grow
    ensures Running(fs) && fs.playerHealth >= 0 ==> 0 <= r.playerHealth <= fs.playerHealth
    ensures Running(fs) && fs.opponentHealth >= 0 ==> 0 <= r.opponentHealth <= fs.opponentHealth
    ensures Running(fs) && fs.opponentStamina >= 0 ==> 0 <= r.opponentStamina <= fs.opponentStamina
    // the player always spends 7 to 9 stamina, clamped at 0
    ensures Running(fs) ==>
      Max(0, fs.playerStamina - 9) <= r.playerStamina <= Max(0, fs.playerStamina - 7)
    // a knockout by the player skips the opponent's turn entirely
    ensures Running(fs) && KnockoutBlow(fs, d) ==>
      r.isFightOver && r.winner == Some(PlayerSide) && r.opponentHealth == 0
    // an opponent's blow that takes the player's health to 0 ends the fight for the opponent
    ensures Running(fs) && OpponentKnockout(fs, d) ==>
      r.isFightOver && r.winner == Some(OpponentSide) && r.playerHealth == 0
    // the fight ends by a knockout or at the round limit, and only then
    ensures Running(fs) ==> EndsFight(fs, d, r.isFightOver)
    // otherwise the opponent spends 6 to 8 stamina, clamped at 0
    ensures Running(fs) && !KnockoutBlow(fs, d) ==>
      Max(0, fs.opponentStamina - 8) <= r.opponentStamina <= Max(0, fs.opponentStamina - 6)
    // at the round limit the fight always ends with a winner
    ensures Running(fs) && fs.currentRound >= MAX_FIGHT_ROUNDS ==> r.isFightOver
    ensures Running(fs) && r.isFightOver ==> r.winner.Some?
    ensures Running(fs) && !r.isFightOver ==> r.winner == fs.winner && r.currentRound < MAX_FIGHT_ROUNDS
    // a fight that ends without a knockout goes to the larger health fraction
    ensures Running(fs) && r.isFightOver && r.playerHealth > 0 && r.opponentHealth > 0 ==>
      r.winner.value == JudgesDecision(r.playerHealth, fs.snapshot.value.health, r.opponentHealth,
                                       fs.opponent.value.stats.health, d.tieBreakToPlayer)
    // the last new event is the one conclusion exactly when the fight ended
    ensures Running(fs) && r.isFightOver ==>
      ConcludedLog(r.roundLog[|fs.roundLog|..], r.winner == Some(PlayerSide))
    ensures Running(fs) && !r.isFightOver ==> OpenLog(r.roundLog[|fs.roundLog|..])
  {
    if !Running(fs) then fs
    else
      var c := RoundCombat(fs, d);
      var batch := Stamp(c.events, nextId);
      assert (fs.roundLog + batch)[|fs.roundLog|..] == batch;
      assert (fs.roundLog + batch)[..|fs.roundLog|] == fs.roundLog;
      fs.(playerHealth := c.ph, playerStamina := c.ps,
          opponentHealth := c.oh, opponentStamina := c.os,
          isFightOver := c.over, winner := c.winner,
          roundLog := fs.roundLog + batch,
          isProcessingRoundEvents := true, uiReadyForNextEvent := false)
  }

  /** Why `initiateFight` turns a bout down. */
  datatype FightRefusal = TooInjured | TooTired

  datatype FightStartResult = Refused(reason: FightRefusal) | Started(state: FightState)

  /**
   Sets up a bout (`initiateFight`): a player below 30 current health or 20
   current stamina is sent away; otherwise the player's attributes are
   frozen in a snapshot and both fighters start from their current values.
   */
  function InitiateFight(stats: PlayerStats, opponent: Opponent): (r: FightStartResult)
    ensures r == Refused(TooInjured) <==> stats.currentHealth < MIN_FIGHT_HEALTH
    ensures r == Refused(TooTired) <==>
      stats.currentHealth >= MIN_FIGHT_HEALTH && stats.currentStamina < MIN_FIGHT_STAMINA
    ensures r.Started? ==>
      var fs := r.state;
      && fs.opponent == Some(opponent)
      && fs.snapshot.Some?
      && fs.snapshot.value.strength == stats.strength
      && fs.snapshot.value.speed == stats.speed
      && fs.snapshot.value.technique == stats.technique
      && fs.snapshot.value.health == stats.health
      && fs.snapshot.value.stamina == stats.stamina
      && fs.snapshot.value.rank == stats.rank
      && fs.snapshot.value.playerName == stats.playerName
      && fs.snapshot.value.traits == stats.traits
      && fs.playerHealth == stats.currentHealth >= MIN_FIGHT_HEALTH
      && fs.playerStamina == stats.currentStamina >= MIN_FIGHT_STAMINA
      && fs.opponentHealth == opponent.stats.health
      && fs.opponentStamina == opponent.stats.stamina
      && fs.currentRound == 0 && fs.roundLog == [] && fs.transcript == []
      && !fs.isFightOver && fs.winner == None
      && !fs.isProcessingRoundEvents && fs.uiReadyForNextEvent
  {
    if stats.currentHealth < MIN_FIGHT_HEALTH then Refused(TooInjured)
    else if stats.currentStamina < MIN_FIGHT_STAMINA then Refused(TooTired)
    else
      var snap := PlayerSnapshot(stats.strength, stats.speed, stats.technique, stats.health,
                                 stats.stamina, stats.rank, stats.playerName, stats.traits);
      Started(FightState(Some(opponent), Some(snap),
                         stats.currentHealth, stats.currentStamina,
                         opponent.stats.health, opponent.stats.stamina,
                         0, [], [], false, None, false, true))
  }
}
