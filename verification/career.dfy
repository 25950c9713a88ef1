/**
 The career between fights: the weekly tick with its news effects and
 sponsorship bookkeeping, training, promotion through the ranks, and which
 opponents the player may challenge.
 */
module Career {
  import opened GameTypes
  import opened GameConstants

  /** `Math.min(hi, Math.max(lo, x))`. */
  function Clamp(lo: int, hi: int, x: int): (r: int)
    ensures r <= hi
    ensures lo <= hi ==> lo <= r
    ensures lo <= x <= hi ==> r == x
    ensures x < lo ==> r == Min(lo, hi)
    ensures x > hi ==> r == hi
  {
    Min(hi, Max(lo, x))
  }

  /** The week counter together with the player's stats. */
  datatype Career = Career(week: int, stats: PlayerStats)

  /**
   The ranges every career operation keeps the player in. Current health is
   bounded by the global cap rather than by the player's own maximum,
   because resting can lift it past the latter (see `RestCanLiftHealthAboveMaximum`).
   */
  predicate Bounded(p: PlayerStats) {
    && 0 <= p.strength <= MAX_STAT_VALUE && 0 <= p.speed <= MAX_STAT_VALUE
    && 0 <= p.technique <= MAX_STAT_VALUE && 0 <= p.stamina <= MAX_STAT_VALUE
    && 0 <= p.health <= MAX_HEALTH
    && 0 <= p.currentStamina <= p.stamina
    && 0 <= p.currentHealth <= MAX_HEALTH
    && p.reputation >= 0 && p.funds >= 0
    && p.rank in RANKS
    && NonNegativeAmounts(p.activeSponsorships)
  }

  predicate NonNegativeAmounts(cs: seq<ActiveSponsorship>) {
    forall i :: 0 <= i < |cs| ==> cs[i].contract.amount >= 0
  }

  /** Name, record, rank, money and contracts are the same in both. */
  predicate SameCareer(p: PlayerStats, q: PlayerStats) {
    && q.playerName == p.playerName && q.wins == p.wins && q.losses == p.losses
    && q.rank == p.rank && q.reputation == p.reputation && q.funds == p.funds
    && q.activeSponsorships == p.activeSponsorships
    && q.completedSponsorshipIds == p.completedSponsorshipIds
    && q.traits == p.traits
  }

  lemma InitialStatsBounded()
    ensures Bounded(INITIAL_PLAYER_STATS)
  {
    InitialStatsWellFormed();
  }

  // ---------------------------------------------------------------------
  // Weekly news effects

  /**
   One news effect: the targeted value moves by the effect's value, clamped
   at 0 below and at its cap above (the player's maximum for current health
   and stamina, the global caps for the attributes, none for money and
   reputation). Lowering a maximum also lowers the current value with it.
   */
  function ApplyNewsEffect(p: PlayerStats, e: NewsEffect): (r: PlayerStats)
    ensures e.target == NewsFunds ==>
      && r == p.(funds := r.funds) && r.funds >= 0
      && (p.funds + e.value >= 0 ==> r.funds == p.funds + e.value)
      && (p.funds + e.value < 0 ==> r.funds == 0)
    ensures e.target == NewsReputation ==>
      && r == p.(reputation := r.reputation) && r.reputation >= 0
      && (p.reputation + e.value >= 0 ==> r.reputation == p.reputation + e.value)
      && (p.reputation + e.value < 0 ==> r.reputation == 0)
    ensures e.target == NewsCurrentHealth ==>
      && r == p.(currentHealth := r.currentHealth) && r.currentHealth <= p.health
      && (0 <= p.currentHealth + e.value <= p.health ==> r.currentHealth == p.currentHealth + e.value)
      && (p.currentHealth + e.value < 0 <= p.health ==> r.currentHealth == 0)
      && (p.currentHealth + e.value > p.health ==> r.currentHealth == p.health)
    ensures e.target == NewsCurrentStamina ==>
      && r == p.(currentStamina := r.currentStamina) && r.currentStamina <= p.stamina
      && (0 <= p.currentStamina + e.value <= p.stamina ==> r.currentStamina == p.currentStamina + e.value)
      && (p.currentStamina + e.value < 0 <= p.stamina ==> r.currentStamina == 0)
      && (p.currentStamina + e.value > p.stamina ==> r.currentStamina == p.stamina)
    ensures e.target.NewsStat? ==> r == NewsOnAttribute(p, e.target.stat, e.value)
  {
    match e.target
    case NewsFunds => p.(funds := Max(0, p.funds + e.value))
    case NewsReputation => p.(reputation := Max(0, p.reputation + e.value))
    case NewsCurrentHealth => p.(currentHealth := Clamp(0, p.health, p.currentHealth + e.value))
    case NewsCurrentStamina => p.(currentStamina := Clamp(0, p.stamina, p.currentStamina + e.value))
    case NewsStat(s) => NewsOnAttribute(p, s, e.value)
  }

  /**
   A news effect on one attribute: clamped to 0..`MAX_STAT_VALUE`
   (0..`MAX_HEALTH` for maximum health); lowering maximum stamina or health
   lowers the current value with it.
   */
  function NewsOnAttribute(p: PlayerStats, s: Stat, v: int): (r: PlayerStats)
    ensures s != Stamina && s != Health ==>
      && r == p.SetStat(s, r.GetStat(s))
      && 0 <= r.GetStat(s) <= MAX_STAT_VALUE
      && (0 <= p.GetStat(s) + v <= MAX_STAT_VALUE ==> r.GetStat(s) == p.GetStat(s) + v)
      && (p.GetStat(s) + v < 0 ==> r.GetStat(s) == 0)
      && (p.GetStat(s) + v > MAX_STAT_VALUE ==> r.GetStat(s) == MAX_STAT_VALUE)
    ensures s == Stamina ==>
      && r == p.(stamina := r.stamina, currentStamina := r.currentStamina)
      && 0 <= r.stamina <= MAX_STAT_VALUE
      && (0 <= p.stamina + v <= MAX_STAT_VALUE ==> r.stamina == p.stamina + v)
      && (p.stamina + v < 0 ==> r.stamina == 0)
      && (p.stamina + v > MAX_STAT_VALUE ==> r.stamina == MAX_STAT_VALUE)
      && r.currentStamina == Min(r.stamina, p.currentStamina)
    ensures s == Health ==>
      && r == p.(health := r.health, currentHealth := r.currentHealth)
      && 0 <= r.health <= MAX_HEALTH
      && (0 <= p.health + v <= MAX_HEALTH ==> r.health == p.health + v)
      && (p.health + v < 0 ==> r.health == 0)
      && (p.health + v > MAX_HEALTH ==> r.health == MAX_HEALTH)
      && r.currentHealth == Min(r.health, p.currentHealth)
  {
    if s == Stamina then
      var m := Clamp(0, MAX_STAT_VALUE, p.stamina + v);
      p.(stamina := m, currentStamina := Min(m, p.currentStamina))
    else if s == Health then
      var m := Clamp(0, MAX_HEALTH, p.health + v);
      p.(health := m, currentHealth := Min(m, p.currentHealth))
    else
      p.SetStat(s, Clamp(0, MAX_STAT_VALUE, p.GetStat(s) + v))
  }

  /** No news effect takes the player out of the bounded ranges. */
  lemma NewsEffectKeepsBounds(p: PlayerStats, e: NewsEffect)
    ensures Bounded(p) ==> Bounded(ApplyNewsEffect(p, e))
  {
    match e.target
    case NewsStat(s) =>
      if s != Stamina && s != Health {
        assert NewsOnAttribute(p, s, e.value) == p.SetStat(s, Clamp(0, MAX_STAT_VALUE, p.GetStat(s) + e.value));
      }
    case _ =>
  }

  /** A week's news effects, applied in order. */
  function ApplyNewsEffects(p: PlayerStats, es: seq<NewsEffect>): (r: PlayerStats)
    ensures Bounded(p) ==> Bounded(r)
    ensures r.playerName == p.playerName && r.wins == p.wins && r.losses == p.losses && r.rank == p.rank
    ensures r.activeSponsorships == p.activeSponsorships
    ensures r.completedSponsorshipIds == p.completedSponsorshipIds && r.traits == p.traits
    ensures (forall i :: 0 <= i < |es| ==> !es[i].target.NewsFunds?) ==> r.funds == p.funds
    decreases |es|
  {
    if |es| == 0 then p
    else
      NewsEffectKeepsBounds(p, es[0]);
      ApplyNewsEffects(ApplyNewsEffect(p, es[0]), es[1..])
  }

  // ---------------------------------------------------------------------
  // The weekly tick

  /** Total weekly income of the contracts. */
  function SumAmounts(cs: seq<ActiveSponsorship>): int {
    if |cs| == 0 then 0 else SumAmounts(cs[..|cs| - 1]) + cs[|cs| - 1].contract.amount
  }

  /** The contracts still running after a week, one week shorter, in order. */
  function Survivors(cs: seq<ActiveSponsorship>): (r: seq<ActiveSponsorship>)
    ensures |r| <= |cs|
    ensures forall i :: 0 <= i < |r| ==> r[i].weeksRemaining > 0
  {
    if |cs| == 0 then []
    else
      var last := cs[|cs| - 1];
      Survivors(cs[..|cs| - 1]) + (if last.weeksRemaining - 1 > 0 then [last.(weeksRemaining := last.weeksRemaining - 1)] else [])
  }

  /** The ids of the contracts that run out this week, in order. */
  function ExpiredIds(cs: seq<ActiveSponsorship>): seq<string> {
    if |cs| == 0 then []
    else
      var last := cs[|cs| - 1];
      ExpiredIds(cs[..|cs| - 1]) + (if last.weeksRemaining - 1 > 0 then [] else [last.Id()])
  }

  /**
   The `forEach` over the active contracts: collects the income, the
   shortened survivors and the expired ids in one pass.
   */
  method SettleContracts(cs: seq<ActiveSponsorship>) returns (income: int, remaining: seq<ActiveSponsorship>, expired: seq<string>)
    ensures income == SumAmounts(cs)
    ensures remaining == Survivors(cs)
    ensures expired == ExpiredIds(cs)
  {
    income, remaining, expired := 0, [], [];
    for i := 0 to |cs|
      invariant income == SumAmounts(cs[..i])
      invariant remaining == Survivors(cs[..i])
      invariant expired == ExpiredIds(cs[..i])
    {
      assert cs[..i + 1][..i] == cs[..i];
      var c := cs[i];
      income := income + c.contract.amount;
      var weeks := c.weeksRemaining - 1;
      if weeks > 0 {
        remaining := remaining + [c.(weeksRemaining := weeks)];
      } else {
        expired := expired + [c.Id()];
      }
    }
    assert cs[..|cs|] == cs;
  }

  /**
   The stats update of `advanceWeek` once the news is applied: the player
   recovers 3 stamina and 1 health, each capped at the player's maximum; the
   contracts pay their weekly amounts and count down; contracts that run out
   are recorded as completed; nothing else changes.
   */
  function WeeklyTick(q: PlayerStats): (r: PlayerStats)
    ensures r.funds == q.funds + SumAmounts(q.activeSponsorships)
    ensures r.activeSponsorships == Survivors(q.activeSponsorships)
    ensures r.completedSponsorshipIds == q.completedSponsorshipIds + ExpiredIds(q.activeSponsorships)
    ensures r.currentStamina <= Max(q.stamina, q.currentStamina)
    ensures q.currentStamina + 3 <= q.stamina ==> r.currentStamina == q.currentStamina + 3
    ensures q.currentStamina + 3 >= q.stamina ==> r.currentStamina == q.stamina
    ensures r.currentHealth <= Max(q.health, q.currentHealth)
    ensures q.currentHealth + 1 <= q.health ==> r.currentHealth == q.currentHealth + 1
    ensures q.currentHealth + 1 >= q.health ==> r.currentHealth == q.health
    ensures r.(funds := q.funds, activeSponsorships := q.activeSponsorships,
               completedSponsorshipIds := q.completedSponsorshipIds,
               currentStamina := q.currentStamina, currentHealth := q.currentHealth) == q
  {
    q.(currentStamina := Min(q.stamina, q.currentStamina + 3),
       currentHealth := Min(q.health, q.currentHealth + 1),
       funds := q.funds + SumAmounts(q.activeSponsorships),
       activeSponsorships := Survivors(q.activeSponsorships),
       completedSponsorshipIds := q.completedSponsorshipIds + ExpiredIds(q.activeSponsorships))
  }

  lemma WeeklyTickKeepsBounds(q: PlayerStats)
    requires Bounded(q)
    ensures Bounded(WeeklyTick(q))
  {
    SumAmountsNonNegative(q.activeSponsorships);
    SurvivorsKeepAmounts(q.activeSponsorships);
  }

  /**
   `advanceWeek`: the week counter moves on, this week's news effects are
   applied, and then the weekly tick, with the contracts settled in one pass
   as the `forEach` does.
   */
  method AdvanceWeek(c: Career, news: seq<NewsEffect>) returns (r: Career)
    ensures r == Career(c.week + 1, WeeklyTick(ApplyNewsEffects(c.stats, news)))
    ensures Bounded(c.stats) ==> Bounded(r.stats)
    ensures r.stats.wins == c.stats.wins && r.stats.losses == c.stats.losses && r.stats.rank == c.stats.rank
  {
    var q := ApplyNewsEffects(c.stats, news);
    var income, remaining, expired := SettleContracts(q.activeSponsorships);
    r := Career(c.week + 1, q.(
      currentStamina := Min(q.stamina, q.currentStamina + 3),
      currentHealth := Min(q.health, q.currentHealth + 1),
      funds := q.funds + income,
      activeSponsorships := remaining,
      completedSponsorshipIds := q.completedSponsorshipIds + expired));
    if Bounded(c.stats) {
      WeeklyTickKeepsBounds(q);
    }
  }

  lemma {:induction false} SumAmountsNonNegative(cs: seq<ActiveSponsorship>)
    requires NonNegativeAmounts(cs)
    ensures SumAmounts(cs) >= 0
    decreases |cs|
  {
    if |cs| > 0 {
      SumAmountsNonNegative(cs[..|cs| - 1]);
    }
  }

  /**
   A contract survives the week exactly when it had more than one week left,
   and it survives with one week fewer and its terms unchanged.
   */
  lemma {:induction false} SurvivorsAreShortenedContracts(cs: seq<ActiveSponsorship>)
    ensures forall a :: a in Survivors(cs) <==>
      exists i :: 0 <= i < |cs| && cs[i].weeksRemaining > 1 && a == cs[i].(weeksRemaining := cs[i].weeksRemaining - 1)
    decreases |cs|
  {
    if |cs| > 0 {
      var init := cs[..|cs| - 1];
      SurvivorsAreShortenedContracts(init);
      forall a ensures a in Survivors(cs) <==>
        exists i :: 0 <= i < |cs| && cs[i].weeksRemaining > 1 && a == cs[i].(weeksRemaining := cs[i].weeksRemaining - 1)
      {
        if exists i :: 0 <= i < |cs| && cs[i].weeksRemaining > 1 && a == cs[i].(weeksRemaining := cs[i].weeksRemaining - 1) {
          var i :| 0 <= i < |cs| && cs[i].weeksRemaining > 1 && a == cs[i].(weeksRemaining := cs[i].weeksRemaining - 1);
          if i < |cs| - 1 {
            assert init[i] == cs[i];
          }
        }
        if a in Survivors(init) {
          var i :| 0 <= i < |init| && init[i].weeksRemaining > 1 && a == init[i].(weeksRemaining := init[i].weeksRemaining - 1);
          assert cs[i] == init[i];
        }
      }
    }
  }

  /** A contract runs out this week exactly when it had at most one week left. */
  lemma {:induction false} ExpiredIdsAreRunOutContracts(cs: seq<ActiveSponsorship>)
    ensures forall id :: id in ExpiredIds(cs) <==>
      exists i :: 0 <= i < |cs| && cs[i].weeksRemaining <= 1 && cs[i].Id() == id
    decreases |cs|
  {
    if |cs| > 0 {
      var init := cs[..|cs| - 1];
      ExpiredIdsAreRunOutContracts(init);
      forall id ensures id in ExpiredIds(cs) <==>
        exists i :: 0 <= i < |cs| && cs[i].weeksRemaining <= 1 && cs[i].Id() == id
      {
        if exists i :: 0 <= i < |cs| && cs[i].weeksRemaining <= 1 && cs[i].Id() == id {
          var i :| 0 <= i < |cs| && cs[i].weeksRemaining <= 1 && cs[i].Id() == id;
          if i < |cs| - 1 {
            assert init[i] == cs[i];
          }
        }
        if id in ExpiredIds(init) {
          var i :| 0 <= i < |init| && init[i].weeksRemaining <= 1 && init[i].Id() == id;
          assert cs[i] == init[i];
        }
      }
    }
  }

  /** Income adds up over the concatenation of two contract lists. */
  lemma {:induction false} IncomeAddsUp(xs: seq<ActiveSponsorship>, ys: seq<ActiveSponsorship>)
    ensures SumAmounts(xs + ys) == SumAmounts(xs) + SumAmounts(ys)
    decreases |ys|
  {
    if |ys| == 0 {
      assert xs + ys == xs;
    } else {
      var ys' := ys[..|ys| - 1];
      IncomeAddsUp(xs, ys');
      assert (xs + ys)[..|xs + ys| - 1] == xs + ys';
    }
  }

  /**
   Settlement distributes over concatenation: the survivors of a list are
   the survivors of its first part followed by those of the rest, so
   contracts keep the order they were signed in.
   */
  lemma {:induction false} SurvivorsKeepOrder(xs: seq<ActiveSponsorship>, ys: seq<ActiveSponsorship>)
    ensures Survivors(xs + ys) == Survivors(xs) + Survivors(ys)
    decreases |ys|
  {
    if |ys| == 0 {
      assert xs + ys == xs;
    } else {
      var ys' := ys[..|ys| - 1];
      SurvivorsKeepOrder(xs, ys');
      var last := ys[|ys| - 1];
      var tail := if last.weeksRemaining - 1 > 0 then [last.(weeksRemaining := last.weeksRemaining - 1)] else [];
      assert (xs + ys)[..|xs + ys| - 1] == xs + ys';
      assert (xs + ys)[|xs + ys| - 1] == last;
      assert Survivors(ys) == Survivors(ys') + tail;
      assert Survivors(xs + ys) == Survivors(xs + ys') + tail;
    }
  }

  /** Every contract either survives the week or is recorded as expired. */
  lemma {:induction false} EveryContractAccountedFor(cs: seq<ActiveSponsorship>)
    ensures |Survivors(cs)| + |ExpiredIds(cs)| == |cs|
    decreases |cs|
  {
    if |cs| > 0 {
      EveryContractAccountedFor(cs[..|cs| - 1]);
    }
  }

  /** Expired ids likewise come out in the order the contracts were signed in. */
  lemma {:induction false} ExpiredIdsKeepOrder(xs: seq<ActiveSponsorship>, ys: seq<ActiveSponsorship>)
    ensures ExpiredIds(xs + ys) == ExpiredIds(xs) + ExpiredIds(ys)
    decreases |ys|
  {
    if |ys| == 0 {
      assert xs + ys == xs;
    } else {
      var ys' := ys[..|ys| - 1];
      ExpiredIdsKeepOrder(xs, ys');
      var last := ys[|ys| - 1];
      var tail := if last.weeksRemaining - 1 > 0 then [] else [last.Id()];
      assert (xs + ys)[..|xs + ys| - 1] == xs + ys';
      assert (xs + ys)[|xs + ys| - 1] == last;
      assert ExpiredIds(ys) == ExpiredIds(ys') + tail;
      assert ExpiredIds(xs + ys) == ExpiredIds(xs + ys') + tail;
    }
  }

  lemma SurvivorsKeepAmounts(cs: seq<ActiveSponsorship>)
    requires NonNegativeAmounts(cs)
    ensures NonNegativeAmounts(Survivors(cs))
  {
    SurvivorsAreShortenedContracts(cs);
    forall k | 0 <= k < |Survivors(cs)| ensures Survivors(cs)[k].contract.amount >= 0 {
      assert Survivors(cs)[k] in Survivors(cs);
    }
  }

  // ---------------------------------------------------------------------
  // Training

  /** Every attribute gain and stamina recovery of the effects is non-negative. */
  predicate NoNegativeGains(es: seq<TrainingEffect>) {
    forall i :: 0 <= i < |es| ==> GainsOnly(es[i])
  }

  /** An attribute gain or stamina recovery that does not lower anything. */
  predicate GainsOnly(e: TrainingEffect) {
    (e.StatGain? || e.StaminaChange?) ==> e.change >= 0
  }

  /** No effect in the list restores current stamina. */
  predicate NoStaminaRecovery(es: seq<TrainingEffect>) {
    forall i :: 0 <= i < |es| ==> !es[i].StaminaChange?
  }

  /**
   One entry of a training option's effects. An attribute gain is capped at
   `MAX_STAT_VALUE`, and raising a maximum caps the current value by it; a
   health change is clamped to 0..`MAX_HEALTH`, not to the player's own
   maximum; a stamina change is capped at the player's maximum stamina.
   */
  function ApplyTrainingEffect(p: PlayerStats, e: TrainingEffect): (r: PlayerStats)
    ensures SameCareer(p, r)
    ensures e.StatGain? ==>
      && r.GetStat(e.stat) <= MAX_STAT_VALUE
      && (p.GetStat(e.stat) + e.change <= MAX_STAT_VALUE ==> r.GetStat(e.stat) == p.GetStat(e.stat) + e.change)
      && (p.GetStat(e.stat) + e.change > MAX_STAT_VALUE ==> r.GetStat(e.stat) == MAX_STAT_VALUE)
      && (forall s :: s != e.stat ==> r.GetStat(s) == p.GetStat(s))
    ensures e.StatGain? && e.stat == Stamina ==>
      r.currentStamina == Min(r.stamina, p.currentStamina) && r.currentHealth == p.currentHealth
    ensures e.StatGain? && e.stat == Health ==>
      r.currentHealth == Min(r.health, p.currentHealth) && r.currentStamina == p.currentStamina
    ensures e.StatGain? && e.stat != Stamina && e.stat != Health ==>
      r.currentHealth == p.currentHealth && r.currentStamina == p.currentStamina
    ensures e.HealthChange? ==>
      && 0 <= r.currentHealth <= MAX_HEALTH && r == p.(currentHealth := r.currentHealth)
      && (0 <= p.currentHealth + e.change <= MAX_HEALTH ==> r.currentHealth == p.currentHealth + e.change)
      && (p.currentHealth + e.change < 0 ==> r.currentHealth == 0)
      && (p.currentHealth + e.change > MAX_HEALTH ==> r.currentHealth == MAX_HEALTH)
    ensures e.StaminaChange? ==>
      && r == p.(currentStamina := r.currentStamina)
      && r.currentStamina <= p.stamina
      && (p.currentStamina + e.change <= p.stamina ==> r.currentStamina == p.currentStamina + e.change)
      && (p.currentStamina + e.change > p.stamina ==> r.currentStamina == p.stamina)
    ensures !e.StaminaChange? ==> r.currentStamina <= p.currentStamina
  {
    match e
    case StatGain(s, change) =>
      var q := p.SetStat(s, Min(MAX_STAT_VALUE, p.GetStat(s) + change));
      if s == Stamina then q.(currentStamina := Min(q.stamina, q.currentStamina))
      else if s == Health then q.(currentHealth := Min(q.health, q.currentHealth))
      else q
    case HealthChange(change) => p.(currentHealth := Clamp(0, MAX_HEALTH, p.currentHealth + change))
    case StaminaChange(change) => p.(currentStamina := Min(p.stamina, p.currentStamina + change))
  }

  /** An effect that only raises attributes keeps the player's values in range. */
  lemma TrainingEffectKeepsBounds(p: PlayerStats, e: TrainingEffect)
    ensures GainsOnly(e) && Bounded(p) ==> Bounded(ApplyTrainingEffect(p, e))
  {
    if GainsOnly(e) && Bounded(p) && e.StatGain? {
      var q := p.SetStat(e.stat, Min(MAX_STAT_VALUE, p.GetStat(e.stat) + e.change));
      assert 0 <= q.GetStat(e.stat) <= MAX_STAT_VALUE;
      assert q.rank == p.rank && q.activeSponsorships == p.activeSponsorships;
      assert q.currentHealth == p.currentHealth && q.currentStamina == p.currentStamina;
    }
  }

  /** Both restrictions on an effect list carry over to its tail. */
  lemma TailsKeepRestrictions(es: seq<TrainingEffect>)
    requires |es| > 0
    ensures NoNegativeGains(es) ==> NoNegativeGains(es[1..])
    ensures NoStaminaRecovery(es) ==> NoStaminaRecovery(es[1..])
  {
    forall i | 0 <= i < |es[1..]| ensures es[1..][i] == es[i + 1] {
    }
  }

  /** A training option's effects, applied in the order they are listed. */
  function ApplyTrainingEffects(p: PlayerStats, es: seq<TrainingEffect>): (r: PlayerStats)
    ensures SameCareer(p, r)
    ensures NoNegativeGains(es) ==> forall s :: p.GetStat(s) <= MAX_STAT_VALUE ==> p.GetStat(s) <= r.GetStat(s)
    ensures NoStaminaRecovery(es) ==> r.currentStamina <= p.currentStamina
    decreases |es|
  {
    if |es| == 0 then p
    else
      var q := ApplyTrainingEffect(p, es[0]);
      TailsKeepRestrictions(es);
      ApplyTrainingEffects(q, es[1..])
  }

  /** Effects that only raise attributes keep the player's values in range. */
  lemma {:induction false} TrainingEffectsKeepBounds(p: PlayerStats, es: seq<TrainingEffect>)
    requires NoNegativeGains(es) && Bounded(p)
    ensures Bounded(ApplyTrainingEffects(p, es))
    decreases |es|
  {
    if |es| > 0 {
      TrainingEffectKeepsBounds(p, es[0]);
      TailsKeepRestrictions(es);
      TrainingEffectsKeepBounds(ApplyTrainingEffect(p, es[0]), es[1..]);
    }
  }

  /**
   Effects that raise attributes and restore no stamina leave current
   stamina where it was: raising maximum stamina never caps it.
   */
  lemma {:induction false} TrainingKeepsCurrentStamina(p: PlayerStats, es: seq<TrainingEffect>)
    requires NoNegativeGains(es) && NoStaminaRecovery(es)
    requires 0 <= p.currentStamina <= p.stamina <= MAX_STAT_VALUE
    ensures ApplyTrainingEffects(p, es).currentStamina == p.currentStamina
    decreases |es|
  {
    if |es| > 0 {
      var q := ApplyTrainingEffect(p, es[0]);
      assert GainsOnly(es[0]) && !es[0].StaminaChange?;
      assert q.currentStamina == p.currentStamina && p.currentStamina <= q.stamina <= MAX_STAT_VALUE;
      TailsKeepRestrictions(es);
      TrainingKeepsCurrentStamina(q, es[1..]);
    }
  }

  /** Every option in the table only raises attributes and recovers stamina. */
  lemma TrainingTableGainsOnly()
    ensures forall o :: o in TRAINING_OPTIONS ==> NoNegativeGains(o.effects)
    ensures forall o :: o in TRAINING_OPTIONS && o.id != Rest ==> NoStaminaRecovery(o.effects)
  {
  }

  datatype TrainingRefusal = UnknownTraining | NotEnoughStamina

  datatype TrainResult = TrainingRefused(reason: TrainingRefusal) | Trained(stats: PlayerStats)

  /**
   Training with one option: refused when the player's current stamina is
   below its cost; otherwise the cost is paid (clamped at 0) and the effects
   are applied in order.
   */
  function TrainWith(p: PlayerStats, o: TrainingOption): (r: TrainResult)
    ensures r.TrainingRefused? <==> p.currentStamina < o.staminaCost
    ensures r.TrainingRefused? ==> r.reason == NotEnoughStamina
    ensures r.Trained? ==> SameCareer(p, r.stats)
    ensures r.Trained? && Bounded(p) && o.staminaCost >= 0 && NoNegativeGains(o.effects) ==> Bounded(r.stats)
    ensures r.Trained? && NoNegativeGains(o.effects) ==>
      forall s :: p.GetStat(s) <= MAX_STAT_VALUE ==> p.GetStat(s) <= r.stats.GetStat(s)
    ensures r.Trained? && o.staminaCost > 0 && NoStaminaRecovery(o.effects) ==>
      r.stats.currentStamina < p.currentStamina
    ensures r.Trained? && o.staminaCost >= 0 && Bounded(p) && NoNegativeGains(o.effects) && NoStaminaRecovery(o.effects) ==>
      r.stats.currentStamina == p.currentStamina - o.staminaCost
    ensures r.Trained? ==>
      r.stats == ApplyTrainingEffects(p.(currentStamina := Max(0, p.currentStamina - o.staminaCost)), o.effects)
  {
    if p.currentStamina < o.staminaCost then TrainingRefused(NotEnoughStamina)
    else
      var paid := p.(currentStamina := Max(0, p.currentStamina - o.staminaCost));
      assert Bounded(p) && o.staminaCost >= 0 ==> Bounded(paid);
      assert forall s :: paid.GetStat(s) == p.GetStat(s);
      if Bounded(p) && o.staminaCost >= 0 && NoNegativeGains(o.effects) then
        TrainingEffectsKeepBounds(paid, o.effects);
        if NoStaminaRecovery(o.effects) then
          TrainingKeepsCurrentStamina(paid, o.effects);
          Trained(ApplyTrainingEffects(paid, o.effects))
        else
          Trained(ApplyTrainingEffects(paid, o.effects))
      else
        Trained(ApplyTrainingEffects(paid, o.effects))
  }

  /**
   The stats update of `handleTraining`: the option is looked up in the
   table (an unknown one is refused) and trained with. Since every option
   only raises attributes, training never lowers one, and every option but
   resting spends stamina.
   */
  function Train(p: PlayerStats, t: TrainingType): (r: TrainResult)
    ensures r != TrainingRefused(UnknownTraining)
    ensures forall o :: o in TRAINING_OPTIONS && o.id == t ==>
      (r.TrainingRefused? <==> p.currentStamina < o.staminaCost)
    ensures r.Trained? ==> SameCareer(p, r.stats)
    ensures r.Trained? && Bounded(p) ==> Bounded(r.stats)
    ensures r.Trained? ==> forall s :: p.GetStat(s) <= MAX_STAT_VALUE ==> p.GetStat(s) <= r.stats.GetStat(s)
    ensures r.Trained? && t != Rest ==> r.stats.currentStamina < p.currentStamina
  {
    EveryTrainingTypeListed(t);
    TrainingTableGainsOnly();
    RestIsTheOnlyFreeOption();
    TrainingIdsDistinct();
    match FindTraining(TRAINING_OPTIONS, t)
    case None => TrainingRefused(UnknownTraining)
    case Some(o) => TrainWith(p, o)
  }

  /** Training with a type trains with the table's option of that type. */
  lemma TrainIs(p: PlayerStats, t: TrainingType, o: TrainingOption)
    requires o in TRAINING_OPTIONS && o.id == t
    ensures Train(p, t) == TrainWith(p, o)
  {
    TrainingIdsDistinct();
  }

  /** The first effect of a list is applied before the rest. */
  lemma EffectsStep(p: PlayerStats, e: TrainingEffect, es: seq<TrainingEffect>)
    ensures ApplyTrainingEffects(p, [e] + es) == ApplyTrainingEffects(ApplyTrainingEffect(p, e), es)
  {
    assert ([e] + es)[0] == e && ([e] + es)[1..] == es;
  }

  // What each option of the table does, for every player who can afford it:
  // first for the option itself, then for training by its type.

  lemma SandbagOption(p: PlayerStats)
    ensures TrainWith(p, SANDBAG_OPTION).Trained? <==> p.currentStamina >= 12
    ensures p.currentStamina >= 12 ==> TrainWith(p, SANDBAG_OPTION).stats == p.(
      currentStamina := p.currentStamina - 12,
      strength := Min(MAX_STAT_VALUE, p.strength + 1),
      technique := Min(MAX_STAT_VALUE, p.technique + 1))
  {
    if p.currentStamina >= 12 {
      var paid := p.(currentStamina := p.currentStamina - 12);
      var a := paid.(strength := Min(MAX_STAT_VALUE, p.strength + 1));
      assert SANDBAG_OPTION.effects == [StatGain(Strength, 1)] + [StatGain(Technique, 1)];
      assert ApplyTrainingEffect(paid, StatGain(Strength, 1)) == a;
      EffectsStep(paid, StatGain(Strength, 1), [StatGain(Technique, 1)]);
      EffectsStep(a, StatGain(Technique, 1), []);
      assert [StatGain(Technique, 1)] + [] == [StatGain(Technique, 1)];
    }
  }

  /** The bag: strength and technique up by one, for 12 stamina. */
  lemma SandbagGains(p: PlayerStats)
    ensures Train(p, Sandbag).Trained? <==> p.currentStamina >= 12
    ensures p.currentStamina >= 12 ==> Train(p, Sandbag).stats == p.(
      currentStamina := p.currentStamina - 12,
      strength := Min(MAX_STAT_VALUE, p.strength + 1),
      technique := Min(MAX_STAT_VALUE, p.technique + 1))
  {
    TrainIs(p, Sandbag, SANDBAG_OPTION);
    SandbagOption(p);
  }

  lemma RoadworkOption(p: PlayerStats)
    ensures TrainWith(p, ROADWORK_OPTION).Trained? <==> p.currentStamina >= 18
    ensures p.currentStamina >= 18 ==> TrainWith(p, ROADWORK_OPTION).stats == p.(
      stamina := Min(MAX_STAT_VALUE, p.stamina + 2),
      currentStamina := Min(Min(MAX_STAT_VALUE, p.stamina + 2), p.currentStamina - 18),
      speed := Min(MAX_STAT_VALUE, p.speed + 1))
  {
    if p.currentStamina >= 18 {
      var paid := p.(currentStamina := p.currentStamina - 18);
      var m := Min(MAX_STAT_VALUE, p.stamina + 2);
      var a := paid.(stamina := m, currentStamina := Min(m, p.currentStamina - 18));
      assert ROADWORK_OPTION.effects == [StatGain(Stamina, 2)] + [StatGain(Speed, 1)];
      assert ApplyTrainingEffect(paid, StatGain(Stamina, 2)) == a;
      EffectsStep(paid, StatGain(Stamina, 2), [StatGain(Speed, 1)]);
      EffectsStep(a, StatGain(Speed, 1), []);
      assert [StatGain(Speed, 1)] + [] == [StatGain(Speed, 1)];
    }
  }

  /** Roadwork: maximum stamina up by two and speed up by one, for 18 stamina. */
  lemma RoadworkGains(p: PlayerStats)
    ensures Train(p, Roadwork).Trained? <==> p.currentStamina >= 18
    ensures p.currentStamina >= 18 ==> Train(p, Roadwork).stats == p.(
      stamina := Min(MAX_STAT_VALUE, p.stamina + 2),
      currentStamina := Min(Min(MAX_STAT_VALUE, p.stamina + 2), p.currentStamina - 18),
      speed := Min(MAX_STAT_VALUE, p.speed + 1))
  {
    TrainIs(p, Roadwork, ROADWORK_OPTION);
    RoadworkOption(p);
  }

  /** The four effects of sparring, applied once its cost is paid. */
  lemma SparringEffects(p: PlayerStats)
    requires p.currentStamina >= 22
    ensures ApplyTrainingEffects(p.(currentStamina := p.currentStamina - 22),
      [StatGain(Strength, 1)] + ([StatGain(Speed, 1)] + ([StatGain(Technique, 1)] + [HealthChange(-12)]))) == p.(
      currentStamina := p.currentStamina - 22,
      strength := Min(MAX_STAT_VALUE, p.strength + 1),
      speed := Min(MAX_STAT_VALUE, p.speed + 1),
      technique := Min(MAX_STAT_VALUE, p.technique + 1),
      currentHealth := Clamp(0, MAX_HEALTH, p.currentHealth - 12))
  {
    var last := [HealthChange(-12)];
    var rest2 := [StatGain(Technique, 1)] + last;
    var rest1 := [StatGain(Speed, 1)] + rest2;
    var paid := p.(currentStamina := p.currentStamina - 22);
    var a := paid.(strength := Min(MAX_STAT_VALUE, p.strength + 1));
    var b := a.(speed := Min(MAX_STAT_VALUE, p.speed + 1));
    var c := b.(technique := Min(MAX_STAT_VALUE, p.technique + 1));
    assert ApplyTrainingEffect(paid, StatGain(Strength, 1)) == a;
    assert ApplyTrainingEffect(a, StatGain(Speed, 1)) == b;
    assert ApplyTrainingEffect(b, StatGain(Technique, 1)) == c;
    EffectsStep(paid, StatGain(Strength, 1), rest1);
    EffectsStep(a, StatGain(Speed, 1), rest2);
    EffectsStep(b, StatGain(Technique, 1), last);
    EffectsStep(c, HealthChange(-12), []);
    assert last + [] == last;
  }

  lemma SparringOption(p: PlayerStats)
    ensures TrainWith(p, SPARRING_OPTION).Trained? <==> p.currentStamina >= 22
    ensures p.currentStamina >= 22 ==> TrainWith(p, SPARRING_OPTION).stats == p.(
      currentStamina := p.currentStamina - 22,
      strength := Min(MAX_STAT_VALUE, p.strength + 1),
      speed := Min(MAX_STAT_VALUE, p.speed + 1),
      technique := Min(MAX_STAT_VALUE, p.technique + 1),
      currentHealth := Clamp(0, MAX_HEALTH, p.currentHealth - 12))
  {
    if p.currentStamina >= 22 {
      assert SPARRING_OPTION.effects ==
        [StatGain(Strength, 1)] + ([StatGain(Speed, 1)] + ([StatGain(Technique, 1)] + [HealthChange(-12)]));
      SparringEffects(p);
    }
  }

  /**
   Sparring: strength, speed and technique up by one and 12 health lost
   (not below 0), for 22 stamina.
   */
  lemma SparringGains(p: PlayerStats)
    ensures Train(p, Sparring).Trained? <==> p.currentStamina >= 22
    ensures p.currentStamina >= 22 ==> Train(p, Sparring).stats == p.(
      currentStamina := p.currentStamina - 22,
      strength := Min(MAX_STAT_VALUE, p.strength + 1),
      speed := Min(MAX_STAT_VALUE, p.speed + 1),
      technique := Min(MAX_STAT_VALUE, p.technique + 1),
      currentHealth := Clamp(0, MAX_HEALTH, p.currentHealth - 12))
  {
    TrainIs(p, Sparring, SPARRING_OPTION);
    SparringOption(p);
  }

  lemma WeightLiftingOption(p: PlayerStats)
    ensures TrainWith(p, WEIGHT_LIFTING_OPTION).Trained? <==> p.currentStamina >= 18
    ensures p.currentStamina >= 18 ==> TrainWith(p, WEIGHT_LIFTING_OPTION).stats == p.(
      currentStamina := p.currentStamina - 18,
      strength := Min(MAX_STAT_VALUE, p.strength + 2))
  {
    if p.currentStamina >= 18 {
      var paid := p.(currentStamina := p.currentStamina - 18);
      assert WEIGHT_LIFTING_OPTION.effects == [StatGain(Strength, 2)] + [];
      EffectsStep(paid, StatGain(Strength, 2), []);
    }
  }

  /** Weight lifting: strength up by two, for 18 stamina. */
  lemma WeightLiftingGains(p: PlayerStats)
    ensures Train(p, WeightLifting).Trained? <==> p.currentStamina >= 18
    ensures p.currentStamina >= 18 ==> Train(p, WeightLifting).stats == p.(
      currentStamina := p.currentStamina - 18,
      strength := Min(MAX_STAT_VALUE, p.strength + 2))
  {
    TrainIs(p, WeightLifting, WEIGHT_LIFTING_OPTION);
    WeightLiftingOption(p);
  }

  lemma RestOption(p: PlayerStats)
    ensures TrainWith(p, REST_OPTION).Trained? <==> p.currentStamina >= 0
    ensures p.currentStamina >= 0 ==> TrainWith(p, REST_OPTION).stats == p.(
      currentHealth := Clamp(0, MAX_HEALTH, p.currentHealth + 25),
      currentStamina := Min(p.stamina, p.currentStamina + 30))
  {
    if p.currentStamina >= 0 {
      var a := p.(currentHealth := Clamp(0, MAX_HEALTH, p.currentHealth + 25));
      assert REST_OPTION.effects == [HealthChange(25)] + [StaminaChange(30)];
      assert p.(currentStamina := Max(0, p.currentStamina - 0)) == p;
      assert ApplyTrainingEffect(p, HealthChange(25)) == a;
      EffectsStep(p, HealthChange(25), [StaminaChange(30)]);
      EffectsStep(a, StaminaChange(30), []);
      assert [StaminaChange(30)] + [] == [StaminaChange(30)];
    }
  }

  /**
   Resting is free: 25 health back (up to the global cap) and 30 stamina
   back (up to the player's maximum).
   */
  lemma RestGains(p: PlayerStats)
    ensures Train(p, Rest).Trained? <==> p.currentStamina >= 0
    ensures p.currentStamina >= 0 ==> Train(p, Rest).stats == p.(
      currentHealth := Clamp(0, MAX_HEALTH, p.currentHealth + 25),
      currentStamina := Min(p.stamina, p.currentStamina + 30))
  {
    TrainIs(p, Rest, REST_OPTION);
    RestOption(p);
  }

  /**
   Resting is clamped to the global health cap, not to the player's own
   maximum, so a player whose maximum health has dropped can rest to above it.
   */
  lemma RestCanLiftHealthAboveMaximum(p: PlayerStats)
    requires Bounded(p) && p.currentHealth <= p.health < MAX_HEALTH
    requires p.currentHealth + 25 >= MAX_HEALTH
    ensures Train(p, Rest).Trained? && Train(p, Rest).stats.currentHealth == MAX_HEALTH > p.health
  {
    RestGains(p);
  }

  datatype TrainingOutcome = Refused(reason: TrainingRefusal) | BackToMenu | GameOver

  /**
   `handleTraining`. A refused option changes nothing. Otherwise the stats
   are updated; the week then advances only when the player's health before
   training was positive, and the game is over when it was not.
   */
  method HandleTraining(c: Career, t: TrainingType, news: seq<NewsEffect>) returns (r: Career, outcome: TrainingOutcome)
    ensures Train(c.stats, t).TrainingRefused? ==> r == c && outcome == Refused(Train(c.stats, t).reason)
    ensures Train(c.stats, t).Trained? && c.stats.currentHealth <= 0 ==>
      r == Career(c.week, Train(c.stats, t).stats) && outcome == GameOver
    ensures Train(c.stats, t).Trained? && c.stats.currentHealth > 0 ==>
      r.week == c.week + 1 && outcome == BackToMenu
    // the trained stats are what the week's news and tick then apply to
    ensures Train(c.stats, t).Trained? && c.stats.currentHealth > 0 ==>
      r == Career(c.week + 1, WeeklyTick(ApplyNewsEffects(Train(c.stats, t).stats, news)))
    ensures Bounded(c.stats) ==> Bounded(r.stats)
    ensures r.stats.wins == c.stats.wins && r.stats.losses == c.stats.losses && r.stats.rank == c.stats.rank
  {
    match Train(c.stats, t)
    case TrainingRefused(reason) =>
      r, outcome := c, Refused(reason);
    case Trained(s) =>
      if c.stats.currentHealth > 0 {
        r := AdvanceWeek(Career(c.week, s), news);
        outcome := BackToMenu;
      } else {
        r, outcome := Career(c.week, s), GameOver;
      }
  }

  // ---------------------------------------------------------------------
  // Promotion

  /** `wins / (wins + losses) > 0.55`, in exact arithmetic. */
  predicate WinRatioAboveThreshold(wins: nat, losses: nat) {
    20 * wins > 11 * (wins + losses)
  }

  /** The promotion rule: enough wins for the rank, and no losses or a good record. */
  predicate QualifiesForRankUp(p: PlayerStats) {
    && p.rank in RANK_UP_WINS
    && p.wins >= RANK_UP_WINS[p.rank]
    && (p.losses == 0 || WinRatioAboveThreshold(p.wins, p.losses))
  }

  /**
   `checkRankUp`: a qualifying player moves up exactly one rank and gains
   twice the rank bonus in reputation; nothing else changes, and in
   particular the win-loss record is kept.
   */
  function CheckRankUp(p: PlayerStats): (r: PlayerStats)
    ensures r.wins == p.wins && r.losses == p.losses
    ensures r != p <==> QualifiesForRankUp(p)
    ensures QualifiesForRankUp(p) ==>
      && IndexOf(RANKS, r.rank) == IndexOf(RANKS, p.rank) + 1
      && r.reputation == p.reputation + 10
      && r == p.(rank := r.rank, reputation := r.reputation)
    ensures IndexOf(RANKS, p.rank) == -1 || p.rank == CHAMPION ==> r == p
    ensures Bounded(p) ==> Bounded(r)
  {
    RanksWellFormed();
    RankUpWinsCoverAllButLast();
    var index := IndexOf(RANKS, p.rank);
    if index == -1 || index == |RANKS| - 1 then p
    else if p.rank !in RANK_UP_WINS || RANK_UP_WINS[p.rank] == 0 then p
    else
      var needed := RANK_UP_WINS[p.rank];
      var next := RANKS[index + 1];
      assert p.rank in RANKS[..|RANKS| - 1];
      assert IndexOf(RANKS, next) == index + 1;
      if p.wins >= needed && (p.losses == 0 || WinRatioAboveThreshold(p.wins, p.losses)) then
        p.(rank := next, reputation := p.reputation + REPUTATION_GAIN_WIN_RANK_BONUS * 2)
      else p
  }

  // ---------------------------------------------------------------------
  // Opponent availability

  /** The rank an opponent requires, as an index into `RANKS`; -1 when none. */
  function RequiredRankIndex(o: Opponent): (i: int)
    ensures -1 <= i < |RANKS|
    ensures i == -1 <==> o.rankRequired.None? || o.rankRequired.value !in RANKS
    ensures 0 <= i ==> o.rankRequired == Some(RANKS[i]) && RANKS[i] !in RANKS[..i]
  {
    match o.rankRequired
    case None => -1
    case Some(rank) => IndexOf(RANKS, rank)
  }

  /** A champion may fight anyone; everyone else up to one rank above their own. */
  predicate MayFight(playerRankIndex: int, o: Opponent) {
    playerRankIndex == |RANKS| - 1 || RequiredRankIndex(o) <= playerRankIndex + 1
  }

  /** The opponents the rank allows, keeping their order and repetitions. */
  function FilterOpponents(playerRankIndex: int, os: seq<Opponent>): (r: seq<Opponent>)
    ensures |r| <= |os|
    ensures forall o :: o in r <==> o in os && MayFight(playerRankIndex, o)
    ensures (forall i :: 0 <= i < |os| ==> MayFight(playerRankIndex, os[i])) ==> r == os
  {
    if |os| == 0 then []
    else (if MayFight(playerRankIndex, os[0]) then [os[0]] else []) + FilterOpponents(playerRankIndex, os[1..])
  }

  /** `getAvailableOpponents`: the opponents the player's rank allows, in table order. */
  function AvailableOpponents(rank: string, os: seq<Opponent>): (r: seq<Opponent>)
    ensures |r| <= |os|
    ensures forall o :: o in r <==> o in os && MayFight(IndexOf(RANKS, rank), o)
  {
    FilterOpponents(IndexOf(RANKS, rank), os)
  }

  /** Filtering a concatenation filters each part and keeps them in order. */
  lemma {:induction false} FilterKeepsOrder(k: int, xs: seq<Opponent>, ys: seq<Opponent>)
    ensures FilterOpponents(k, xs + ys) == FilterOpponents(k, xs) + FilterOpponents(k, ys)
    decreases |xs|
  {
    if |xs| > 0 {
      assert (xs + ys)[0] == xs[0];
      assert (xs + ys)[1..] == xs[1..] + ys;
      FilterKeepsOrder(k, xs[1..], ys);
    } else {
      assert xs + ys == ys;
    }
  }

  /** A single opponent is listed exactly when the rank allows them. */
  lemma FilterOne(k: int, o: Opponent)
    ensures FilterOpponents(k, [o]) == if MayFight(k, o) then [o] else []
  {
    assert [o][1..] == [];
  }

  /**
   The available list of a concatenated table is the available list of each
   part, in order: together with `FilterOne` this fixes the list exactly.
   */
  lemma AvailableKeepsOrder(rank: string, xs: seq<Opponent>, ys: seq<Opponent>)
    ensures AvailableOpponents(rank, xs + ys) == AvailableOpponents(rank, xs) + AvailableOpponents(rank, ys)
  {
    FilterKeepsOrder(IndexOf(RANKS, rank), xs, ys);
  }

  /** The champion sees the whole list. */
  lemma {:induction false} ChampionSeesEveryone(os: seq<Opponent>)
    ensures AvailableOpponents(CHAMPION, os) == os
    decreases |os|
  {
    RanksWellFormed();
    assert IndexOf(RANKS, CHAMPION) == |RANKS| - 1;
    if |os| > 0 {
      ChampionSeesEveryone(os[1..]);
      assert os == [os[0]] + os[1..];
    }
  }

  /** A higher rank never loses access to an opponent a lower one may fight. */
  lemma AvailabilityGrowsWithRank(lower: string, higher: string, os: seq<Opponent>)
    requires lower in RANKS && higher in RANKS
    requires IndexOf(RANKS, lower) <= IndexOf(RANKS, higher)
    ensures forall o :: o in AvailableOpponents(lower, os) ==> o in AvailableOpponents(higher, os)
  {
  }

  /** A player whose rank is not in the table sees only opponents of the first rank or none. */
  lemma UnknownRankSeesOnlyFirstTier(rank: string, os: seq<Opponent>)
    requires rank !in RANKS
    ensures forall o :: o in AvailableOpponents(rank, os) <==> o in os && RequiredRankIndex(o) <= 0
  {
  }
}
