/**
 The game's static tables: ranks and their rank-up thresholds, the initial
 player, stat caps, reputation rewards, training options and sponsorship
 offers, with the facts about them that the operations rely on.
 */
module GameConstants {
  import opened GameTypes

  const MAX_STAT_VALUE := 100
  const MAX_HEALTH := 100

  const REPUTATION_GAIN_WIN_DEFAULT := 8
  const REPUTATION_GAIN_WIN_RANK_BONUS := 5
  const REPUTATION_LOSS_DEFAULT := 7

  const ROOKIE := "신인"
  const PROSPECT := "유망주"
  const PRO := "프로"
  const RANKER := "랭커"
  const CHAMPION := "챔피언"

  /** The career ladder, lowest first. */
  const RANKS: seq<string> := [ROOKIE, PROSPECT, PRO, RANKER, CHAMPION]

  /** Wins needed to leave each rank; the champion rank has no entry. */
  const RANK_UP_WINS: map<string, int> := map[ROOKIE := 3, PROSPECT := 4, PRO := 6, RANKER := 7]

  const INITIAL_PLAYER_STATS: PlayerStats := PlayerStats(
    "유밥", 10, 10, 50, 50, 5, 100, 100, 0, 0, ROOKIE, 0, 100, [], [], [])

  // The training options, each with its effects in the order they are applied
  // and its stamina cost.
  const SANDBAG_OPTION := TrainingOption(Sandbag, [StatGain(Strength, 1), StatGain(Technique, 1)], 12)
  const ROADWORK_OPTION := TrainingOption(Roadwork, [StatGain(Stamina, 2), StatGain(Speed, 1)], 18)
  const SPARRING_OPTION := TrainingOption(Sparring,
    [StatGain(Strength, 1), StatGain(Speed, 1), StatGain(Technique, 1), HealthChange(-12)], 22)
  const WEIGHT_LIFTING_OPTION := TrainingOption(WeightLifting, [StatGain(Strength, 2)], 18)
  const REST_OPTION := TrainingOption(Rest, [HealthChange(25), StaminaChange(30)], 0)

  const TRAINING_OPTIONS: seq<TrainingOption> :=
    [SANDBAG_OPTION, ROADWORK_OPTION, SPARRING_OPTION, WEIGHT_LIFTING_OPTION, REST_OPTION]

  const AVAILABLE_SPONSORSHIPS: seq<Sponsorship> := [
    Sponsorship("local_gym_support", 20, Weekly, 40, Some(10)),
    Sponsorship("rookie_energy_drink", 75, OneTime, 200, None),
    Sponsorship("sports_gear_basic", 150, Weekly, 100, Some(8)),
    Sponsorship("regional_tournament_sponsor", 300, OneTime, 550, None),
    Sponsorship("national_brand_ambassador", 600, Weekly, 240, Some(12)),
    Sponsorship("global_enterprise_deal", 1200, OneTime, 2000, None)
  ]

  /** The first sponsorship offer with the given id. */
  function FindSponsorship(offers: seq<Sponsorship>, id: string): Option<Sponsorship> {
    FindFirst(offers, (s: Sponsorship) => s.id == id)
  }

  /** The first training option of the given type. */
  function FindTraining(options: seq<TrainingOption>, id: TrainingType): Option<TrainingOption> {
    FindFirst(options, (o: TrainingOption) => o.id == id)
  }

  // ---------------------------------------------------------------------
  // Facts about the tables

  /** Five distinct ranks, the champion last. */
  lemma RanksWellFormed()
    ensures |RANKS| == 5
    ensures forall i, j :: 0 <= i < j < |RANKS| ==> RANKS[i] != RANKS[j]
    ensures RANKS[|RANKS| - 1] == CHAMPION
  {
  }

  /**
   Exactly the first four ranks have a positive rank-up threshold, so a
   player who qualifies for promotion always has a next rank to move to.
   */
  lemma RankUpWinsCoverAllButLast()
    ensures forall r :: r in RANK_UP_WINS <==> r in RANKS[..|RANKS| - 1]
    ensures forall r :: r in RANK_UP_WINS ==> RANK_UP_WINS[r] > 0
  {
    forall r ensures r in RANK_UP_WINS <==> r in RANKS[..|RANKS| - 1] {
      assert RANKS[..|RANKS| - 1] == [ROOKIE, PROSPECT, PRO, RANKER];
    }
  }

  /** A weekly offer always has a positive duration; a one-time offer has none. */
  lemma SponsorshipDurationsWellFormed()
    ensures forall i :: 0 <= i < |AVAILABLE_SPONSORSHIPS| ==>
      (AVAILABLE_SPONSORSHIPS[i].benefitType == Weekly <==> AVAILABLE_SPONSORSHIPS[i].durationWeeks.Some?)
    ensures forall i :: 0 <= i < |AVAILABLE_SPONSORSHIPS| && AVAILABLE_SPONSORSHIPS[i].durationWeeks.Some? ==>
      AVAILABLE_SPONSORSHIPS[i].durationWeeks.value > 0
  {
  }

  /** Every offer pays a positive amount. */
  lemma SponsorshipAmountsPositive()
    ensures forall i :: 0 <= i < |AVAILABLE_SPONSORSHIPS| ==> AVAILABLE_SPONSORSHIPS[i].amount > 0
  {
  }

  /** Offer ids are pairwise distinct, so a lookup by id is unambiguous. */
  lemma SponsorshipIdsDistinct()
    ensures forall i, j :: 0 <= i < j < |AVAILABLE_SPONSORSHIPS| ==>
      AVAILABLE_SPONSORSHIPS[i].id != AVAILABLE_SPONSORSHIPS[j].id
  {
  }

  /**
   The facts above for one offer of the table: its duration is present and
   positive exactly when it is weekly, it pays a positive amount, and no
   other offer shares its id.
   */
  lemma TableOffer(s: Sponsorship)
    requires s in AVAILABLE_SPONSORSHIPS
    ensures s.benefitType == Weekly <==> s.durationWeeks.Some?
    ensures s.durationWeeks.Some? ==> s.durationWeeks.value > 0
    ensures s.amount > 0
    ensures forall s' :: s' in AVAILABLE_SPONSORSHIPS && s'.id == s.id ==> s' == s
  {
    SponsorshipDurationsWellFormed();
    SponsorshipAmountsPositive();
    SponsorshipIdsDistinct();
    var i :| 0 <= i < |AVAILABLE_SPONSORSHIPS| && AVAILABLE_SPONSORSHIPS[i] == s;
    forall s' | s' in AVAILABLE_SPONSORSHIPS && s'.id == s.id ensures s' == s {
      var j :| 0 <= j < |AVAILABLE_SPONSORSHIPS| && AVAILABLE_SPONSORSHIPS[j] == s';
      assert !(i < j) && !(j < i);
    }
  }

  /** The new player starts fully rested, within the caps, with no contracts or traits. */
  lemma InitialStatsWellFormed()
    ensures INITIAL_PLAYER_STATS.currentHealth == INITIAL_PLAYER_STATS.health <= MAX_HEALTH
    ensures INITIAL_PLAYER_STATS.currentStamina == INITIAL_PLAYER_STATS.stamina <= MAX_STAT_VALUE
    ensures INITIAL_PLAYER_STATS.rank == RANKS[0]
    ensures INITIAL_PLAYER_STATS.activeSponsorships == []
    ensures INITIAL_PLAYER_STATS.completedSponsorshipIds == []
    ensures INITIAL_PLAYER_STATS.traits == []
  {
  }

  /**
   Resting is the only free option and the only one that restores current
   stamina; every other option costs stamina.
   */
  lemma RestIsTheOnlyFreeOption()
    ensures forall o :: o in TRAINING_OPTIONS ==>
      (o.staminaCost == 0 <==> o.id == Rest)
    ensures forall o, e :: o in TRAINING_OPTIONS && e in o.effects && e.StaminaChange? ==> o.id == Rest
    ensures forall o :: o in TRAINING_OPTIONS && o.id != Rest ==> o.staminaCost > 0
  {
  }

  /** Each training type has at most one entry in the table. */
  lemma TrainingIdsDistinct()
    ensures forall o, o' :: o in TRAINING_OPTIONS && o' in TRAINING_OPTIONS && o.id == o'.id ==> o == o'
  {
  }

  /** Every training type has an entry in the table. */
  lemma EveryTrainingTypeListed(t: TrainingType)
    ensures FindTraining(TRAINING_OPTIONS, t).Some?
  {
    var i := match t
      case Sandbag => 0
      case Roadwork => 1
      case Sparring => 2
      case WeightLifting => 3
      case Rest => 4;
    assert TRAINING_OPTIONS[i].id == t;
  }
}
