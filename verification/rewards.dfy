/**
 Settling a finished bout: once its last event has been displayed, the
 fight's outcome is written back into the player's career. Beating the
 world champion clears the game; any other win pays reputation, prize money
 and a technique point, scaled by the player's rank with a bonus for beating
 a higher-ranked opponent; a loss costs reputation. After a regular bout
 the player may be promoted and the week advances.
 */
module FightRewards {
  import opened GameTypes
  import opened GameConstants
  import opened Career

  const WORLD_CHAMPION_ID := "world_champion_1"

  const CHAMPION_PRIZE := 5000
  const CHAMPION_PRIZE_PER_RANK := 200
  const CHAMPION_REPUTATION := 500
  const CHAMPION_REPUTATION_PER_RANK := 50
  const CHAMPION_TECHNIQUE_GAIN := 5
  const BASE_PRIZE := 30
  const PRIZE_PER_RANK := 40
  const UNDERDOG_PRIZE_FACTOR := 15
  const WIN_TECHNIQUE_GAIN := 1

  /** The bout is over and every one of its events has been displayed. */
  predicate ReadyToSettle(fs: FightState) {
    fs.isFightOver && !fs.isProcessingRoundEvents && |fs.roundLog| == 0
  }

  /** The player's rank at the start of the bout, as an index into `RANKS`. */
  function PlayerRankIndex(fs: FightState): int
    requires fs.snapshot.Some?
  {
    IndexOf(RANKS, fs.snapshot.value.rank)
  }

  /** The opponent's required rank as an index into `RANKS`; -1 when there is none. */
  function OpponentRankIndex(fs: FightState): (i: int)
    ensures -1 <= i < |RANKS|
  {
    match fs.opponent
    case None => -1
    case Some(o) => RequiredRankIndex(o)
  }

  /**
   Extra reputation for beating an opponent who requires a higher rank than
   the player holds: the rank bonus for every rank of difference.
   */
  function UnderdogBonus(playerIndex: int, opponentIndex: int): (b: int)
    ensures b >= 0
    ensures b > 0 <==> -1 < playerIndex < opponentIndex
    ensures b > 0 ==> b == REPUTATION_GAIN_WIN_RANK_BONUS * (opponentIndex - playerIndex)
  {
    if opponentIndex > -1 && playerIndex > -1 && opponentIndex > playerIndex
    then REPUTATION_GAIN_WIN_RANK_BONUS * (opponentIndex - playerIndex)
    else 0
  }

  /** Reputation earned by a regular win. */
  function WinReputation(playerIndex: int, opponentIndex: int): int {
    REPUTATION_GAIN_WIN_DEFAULT + playerIndex * REPUTATION_GAIN_WIN_RANK_BONUS + UnderdogBonus(playerIndex, opponentIndex)
  }

  /** Prize money of a regular win. */
  function WinPrize(playerIndex: int, opponentIndex: int): int {
    var bonus := UnderdogBonus(playerIndex, opponentIndex);
    BASE_PRIZE + playerIndex * PRIZE_PER_RANK + (if bonus > 0 then bonus * UNDERDOG_PRIZE_FACTOR else 0)
  }

  /** Which screen follows the bout. */
  datatype Verdict = GameClear | Victory | Defeat

  datatype Settlement = Settlement(stats: PlayerStats, fight: FightState, verdict: Verdict)

  /** The player beat the world champion. */
  predicate BeatChampion(fs: FightState) {
    fs.winner == Some(PlayerSide) && fs.opponent.Some? && fs.opponent.value.id == WORLD_CHAMPION_ID
  }

  /**
   The over branch of `processNextFightAction`, without the rank-up and the
   weekly tick that follow a regular bout. Nothing happens until the bout is
   ready to settle. The player leaves the ring with the health and stamina
   the bout ended with. Reputation never drops below 0.
   */
  function SettleFight(p: PlayerStats, fs: FightState): (r: Option<Settlement>)
    requires ReadyToSettle(fs) ==> fs.snapshot.Some?
    ensures r.None? <==> !ReadyToSettle(fs)
    ensures r.Some? ==>
      && r.value.stats.currentHealth == fs.playerHealth && r.value.stats.currentStamina == fs.playerStamina
      && r.value.stats.reputation >= 0
      && r.value.stats.playerName == p.playerName && r.value.stats.traits == p.traits
      && r.value.stats.activeSponsorships == p.activeSponsorships
      && r.value.stats.completedSponsorshipIds == p.completedSponsorshipIds
      && r.value.stats.strength == p.strength && r.value.stats.speed == p.speed
      && r.value.stats.stamina == p.stamina && r.value.stats.health == p.health
      && !r.value.fight.isProcessingRoundEvents && !r.value.fight.uiReadyForNextEvent
      && r.value.fight.transcript == fs.transcript && r.value.fight.roundLog == fs.roundLog
    // beating the world champion clears the game and crowns the player
    ensures r.Some? && BeatChampion(fs) ==>
      && r.value.verdict == GameClear
      && r.value.stats.rank == CHAMPION
      && r.value.stats.wins == p.wins + 1 && r.value.stats.losses == p.losses
      && r.value.stats.funds == p.funds + CHAMPION_PRIZE + PlayerRankIndex(fs) * CHAMPION_PRIZE_PER_RANK
      && r.value.stats.reputation == Max(0, p.reputation + CHAMPION_REPUTATION + PlayerRankIndex(fs) * CHAMPION_REPUTATION_PER_RANK)
      && r.value.stats.technique == Min(MAX_STAT_VALUE, p.technique + CHAMPION_TECHNIQUE_GAIN)
      && r.value.fight.isFightOver && r.value.fight.winner == Some(PlayerSide)
    // any other win pays by rank, with a bonus for an underdog win
    ensures r.Some? && fs.winner == Some(PlayerSide) && !BeatChampion(fs) ==>
      && r.value.verdict == Victory
      && r.value.stats.rank == p.rank
      && r.value.stats.wins == p.wins + 1 && r.value.stats.losses == p.losses
      && r.value.stats.reputation == Max(0, p.reputation + WinReputation(PlayerRankIndex(fs), OpponentRankIndex(fs)))
      && r.value.stats.funds == p.funds + WinPrize(PlayerRankIndex(fs), OpponentRankIndex(fs))
      && r.value.stats.technique == Min(MAX_STAT_VALUE, p.technique + WIN_TECHNIQUE_GAIN)
      && r.value.fight == fs.(isProcessingRoundEvents := false, uiReadyForNextEvent := false)
    // a loss costs reputation and nothing else
    ensures r.Some? && fs.winner != Some(PlayerSide) ==>
      && r.value.verdict == Defeat
      && r.value.stats.rank == p.rank
      && r.value.stats.losses == p.losses + 1 && r.value.stats.wins == p.wins
      && r.value.stats.reputation == Max(0, p.reputation - REPUTATION_LOSS_DEFAULT)
      && r.value.stats.funds == p.funds && r.value.stats.technique == p.technique
      && r.value.fight == fs.(isProcessingRoundEvents := false, uiReadyForNextEvent := false)
  {
    if !ReadyToSettle(fs) then None
    else
      var recovered := p.(currentHealth := fs.playerHealth, currentStamina := fs.playerStamina);
      var playerIndex := PlayerRankIndex(fs);
      if BeatChampion(fs) then
        Some(Settlement(
          recovered.(wins := p.wins + 1,
                     reputation := Max(0, p.reputation + CHAMPION_REPUTATION + playerIndex * CHAMPION_REPUTATION_PER_RANK),
                     funds := p.funds + CHAMPION_PRIZE + playerIndex * CHAMPION_PRIZE_PER_RANK,
                     technique := Min(MAX_STAT_VALUE, p.technique + CHAMPION_TECHNIQUE_GAIN),
                     rank := CHAMPION),
          fs.(isFightOver := true, winner := Some(PlayerSide), uiReadyForNextEvent := false, isProcessingRoundEvents := false),
          GameClear))
      else
        var fight := fs.(uiReadyForNextEvent := false, isProcessingRoundEvents := false);
        if fs.winner == Some(PlayerSide) then
          var opponentIndex := OpponentRankIndex(fs);
          Some(Settlement(
            recovered.(wins := p.wins + 1,
                       reputation := Max(0, p.reputation + WinReputation(playerIndex, opponentIndex)),
                       funds := p.funds + WinPrize(playerIndex, opponentIndex),
                       technique := Min(MAX_STAT_VALUE, p.technique + WIN_TECHNIQUE_GAIN)),
            fight, Victory))
        else
          Some(Settlement(
            recovered.(losses := p.losses + 1, reputation := Max(0, p.reputation - REPUTATION_LOSS_DEFAULT)),
            fight, Defeat))
  }

  /**
   For a player of a known rank, every win raises reputation and pays money,
   and beating an opponent ranked above pays strictly more of both than
   beating one at or below the player's own rank.
   */
  lemma UnderdogWinsPayMore(playerIndex: int, opponentIndex: int, lowerIndex: int)
    requires 0 <= playerIndex < |RANKS|
    requires lowerIndex <= playerIndex < opponentIndex
    ensures WinReputation(playerIndex, lowerIndex) > 0 && WinPrize(playerIndex, lowerIndex) > 0
    ensures WinReputation(playerIndex, opponentIndex) > WinReputation(playerIndex, lowerIndex)
    ensures WinPrize(playerIndex, opponentIndex) > WinPrize(playerIndex, lowerIndex)
  {
  }

  /** Rewards grow with the opponent's rank: a higher-ranked opponent never pays less. */
  lemma RewardsGrowWithOpponentRank(playerIndex: int, a: int, b: int)
    requires a <= b
    ensures WinReputation(playerIndex, a) <= WinReputation(playerIndex, b)
    ensures WinPrize(playerIndex, a) <= WinPrize(playerIndex, b)
  {
  }

  /**
   Settling keeps the career in range, given that the player's rank at the
   bout's start was a real one and that the fight values are in range, which
   `BoutInvariant` and the bout's start guarantee.
   */
  lemma SettleKeepsBounds(p: PlayerStats, fs: FightState)
    requires Bounded(p) && ReadyToSettle(fs) && fs.snapshot.Some?
    requires fs.snapshot.value.rank in RANKS
    requires 0 <= fs.playerHealth <= MAX_HEALTH && 0 <= fs.playerStamina <= p.stamina
    ensures Bounded(SettleFight(p, fs).value.stats)
  {
    RanksWellFormed();
    var i := PlayerRankIndex(fs);
    assert 0 <= i < |RANKS|;
    var o := OpponentRankIndex(fs);
    assert WinPrize(i, o) >= 0;
  }

  /**
   The rest of the over branch of `processNextFightAction` once a regular
   bout is settled: a winner is checked for promotion, then the week
   advances if the player's health as it stood before the bout's result was
   applied (or, for a winner, that health plus the health the bout ended
   with) is positive. Beating the champion ends the game with neither step.
   */
  method ConcludeFight(c: Career, fs: FightState, news: seq<NewsEffect>) returns (r: Career, verdict: Option<Verdict>)
    requires ReadyToSettle(fs) ==> fs.snapshot.Some?
    ensures !ReadyToSettle(fs) ==> r == c && verdict.None?
    ensures ReadyToSettle(fs) ==> verdict == Some(SettleFight(c.stats, fs).value.verdict)
    ensures ReadyToSettle(fs) && BeatChampion(fs) ==> r == Career(c.week, SettleFight(c.stats, fs).value.stats)
    ensures ReadyToSettle(fs) && fs.winner == Some(PlayerSide) && !BeatChampion(fs) ==>
      && r.stats.wins == c.stats.wins + 1 && r.stats.losses == c.stats.losses
      && r.stats.rank == CheckRankUp(SettleFight(c.stats, fs).value.stats).rank
    ensures ReadyToSettle(fs) && fs.winner == Some(PlayerSide) && !BeatChampion(fs) && r.week == c.week ==>
      r.stats == CheckRankUp(SettleFight(c.stats, fs).value.stats)
    ensures ReadyToSettle(fs) && fs.winner != Some(PlayerSide) && r.week == c.week ==>
      r.stats == SettleFight(c.stats, fs).value.stats
    ensures ReadyToSettle(fs) && fs.winner != Some(PlayerSide) ==>
      r.stats.losses == c.stats.losses + 1 && r.stats.wins == c.stats.wins && r.stats.rank == c.stats.rank
    ensures ReadyToSettle(fs) && !BeatChampion(fs) ==>
      (r.week == c.week + 1 <==> c.stats.currentHealth > 0 || (fs.winner == Some(PlayerSide) && c.stats.currentHealth + fs.playerHealth > 0))
    ensures ReadyToSettle(fs) && !BeatChampion(fs) && !(r.week == c.week + 1) ==> r.week == c.week
    // when the week advances, the news and the weekly tick apply to the settled
    // stats, promoted first for a winner
    ensures ReadyToSettle(fs) && !BeatChampion(fs) && r.week == c.week + 1 ==>
      r.stats == WeeklyTick(ApplyNewsEffects(
        if fs.winner == Some(PlayerSide) then CheckRankUp(SettleFight(c.stats, fs).value.stats)
        else SettleFight(c.stats, fs).value.stats, news))
  {
    var settled := SettleFight(c.stats, fs);
    if settled.None? {
      r, verdict := c, None;
      return;
    }
    var s := settled.value;
    verdict := Some(s.verdict);
    if s.verdict == GameClear {
      r := Career(c.week, s.stats);
      return;
    }
    var stats := if fs.winner == Some(PlayerSide) then CheckRankUp(s.stats) else s.stats;
    r := Career(c.week, stats);
    if c.stats.currentHealth > 0 || (fs.winner == Some(PlayerSide) && c.stats.currentHealth + fs.playerHealth > 0) {
      r := AdvanceWeek(r, news);
    }
  }
}
