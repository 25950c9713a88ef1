/**
 The records of the boxing career simulator: the player's career stats,
 opponents, sponsorship contracts, training options, news effects and the
 per-bout fight state with its event log. Every record is immutable; the
 game's operations are pure functions from one record to the next.
 */
module GameTypes {

  datatype Option<T> = None | Some(value: T)

  function Max(a: int, b: int): int { if a >= b then a else b }
  function Min(a: int, b: int): int { if a <= b then a else b }

  /** Position of `x` in `xs`, or -1 when absent (JavaScript's `indexOf`). */
  function IndexOf<T(==)>(xs: seq<T>, x: T): (i: int)
    ensures -1 <= i < |xs|
    ensures i == -1 <==> x !in xs
    ensures 0 <= i ==> xs[i] == x && x !in xs[..i]
  {
    if |xs| == 0 then -1
    else if xs[0] == x then 0
    else
      var j := IndexOf(xs[1..], x);
      assert xs[1..][..Max(j, 0)] == xs[1..Max(j, 0) + 1];
      if j == -1 then -1 else j + 1
  }

  /**
   The first element satisfying `p`, or `None` when there is none
   (`Array.prototype.find`).
   */
  function FindFirst<T>(xs: seq<T>, p: T -> bool): (r: Option<T>)
    ensures r.None? <==> forall i :: 0 <= i < |xs| ==> !p(xs[i])
    ensures r.Some? ==> p(r.value) && r.value in xs
    ensures r.Some? ==> exists i :: 0 <= i < |xs| && xs[i] == r.value && NoneBefore(xs, p, i)
  {
    if |xs| == 0 then None
    else if p(xs[0]) then
      assert NoneBefore(xs, p, 0);
      Some(xs[0])
    else
      var r := FindFirst(xs[1..], p);
      assert r.Some? ==> exists i :: 0 <= i < |xs| && xs[i] == r.value && NoneBefore(xs, p, i) by {
        if r.Some? {
          var i :| 0 <= i < |xs[1..]| && xs[1..][i] == r.value && NoneBefore(xs[1..], p, i);
          assert forall j :: 1 <= j < i + 1 ==> xs[j] == xs[1..][j - 1];
          assert NoneBefore(xs, p, i + 1);
        }
      }
      assert (forall i :: 0 <= i < |xs[1..]| ==> !p(xs[1..][i])) ==> forall i :: 0 <= i < |xs| ==> !p(xs[i]) by {
        if forall i :: 0 <= i < |xs[1..]| ==> !p(xs[1..][i]) {
          assert forall i :: 1 <= i < |xs| ==> xs[i] == xs[1..][i - 1];
        }
      }
      r
  }

  /** No element before position `i` satisfies `p`. */
  predicate NoneBefore<T>(xs: seq<T>, p: T -> bool, i: int)
    requires 0 <= i <= |xs|
  {
    forall j :: 0 <= j < i ==> !p(xs[j])
  }

  // ---------------------------------------------------------------------
  // Sponsorships

  datatype BenefitType = Weekly | OneTime

  /** A sponsorship offer. `durationWeeks` is present only for weekly deals. */
  datatype Sponsorship = Sponsorship(
    id: string,
    reputationRequired: int,
    benefitType: BenefitType,
    amount: int,
    durationWeeks: Option<int>)

  /** A signed weekly contract that is still paying out. */
  datatype ActiveSponsorship = ActiveSponsorship(contract: Sponsorship, weeksRemaining: int)
  {
    function Id(): string { contract.id }
  }

  // ---------------------------------------------------------------------
  // The player

  /** The five trainable attributes; `Stamina` and `Health` are maxima. */
  datatype Stat = Strength | Speed | Technique | Stamina | Health

  datatype PlayerStats = PlayerStats(
    playerName: string,
    strength: int,
    speed: int,
    stamina: int,          // maximum stamina
    currentStamina: int,
    technique: int,
    health: int,           // maximum health
    currentHealth: int,
    wins: nat,
    losses: nat,
    rank: string,
    reputation: int,
    funds: int,
    activeSponsorships: seq<ActiveSponsorship>,
    completedSponsorshipIds: seq<string>,
    traits: seq<string>)
  {
    function GetStat(s: Stat): int {
      match s
      case Strength => strength
      case Speed => speed
      case Technique => technique
      case Stamina => stamina
      case Health => health
    }

    function SetStat(s: Stat, v: int): (r: PlayerStats)
      ensures r.GetStat(s) == v
      ensures forall t :: t != s ==> r.GetStat(t) == GetStat(t)
      ensures r == this.(strength := r.strength, speed := r.speed, technique := r.technique,
                         stamina := r.stamina, health := r.health)
    {
      match s
      case Strength => this.(strength := v)
      case Speed => this.(speed := v)
      case Technique => this.(technique := v)
      case Stamina => this.(stamina := v)
      case Health => this.(health := v)
    }
  }

  // ---------------------------------------------------------------------
  // Training

  datatype TrainingType = Sandbag | Roadwork | Sparring | WeightLifting | Rest

  /** One entry of a training option's `effects` object, in key order. */
  datatype TrainingEffect =
    | StatGain(stat: Stat, change: int)
    | HealthChange(change: int)      // applied to current health
    | StaminaChange(change: int)     // applied to current stamina

  datatype TrainingOption = TrainingOption(id: TrainingType, effects: seq<TrainingEffect>, staminaCost: int)

  // ---------------------------------------------------------------------
  // Weekly news

  datatype NewsTarget =
    | NewsFunds
    | NewsReputation
    | NewsCurrentHealth
    | NewsCurrentStamina
    | NewsStat(stat: Stat)

  datatype NewsEffect = NewsEffect(target: NewsTarget, value: int)

  // ---------------------------------------------------------------------
  // Fights

  datatype OpponentStats = OpponentStats(strength: int, speed: int, stamina: int, technique: int, health: int)

  datatype Opponent = Opponent(id: string, name: string, stats: OpponentStats, rankRequired: Option<string>)

  /** The player's attributes frozen at the start of a bout. */
  datatype PlayerSnapshot = PlayerSnapshot(
    strength: int,
    speed: int,
    technique: int,
    health: int,     // maximum health
    stamina: int,    // maximum stamina
    rank: string,
    playerName: string,
    traits: seq<string>)

  datatype Side = PlayerSide | OpponentSide

  /** The `type` field of a fight event. */
  datatype EventType = Text | PlayerAction | OpponentAction | HealthUpdate | StaminaUpdate | RoundMarkerType | FightConclusion

  /**
   What a fight event says. The narration text itself is left abstract;
   each constructor stands for one message the resolver can emit, with the
   numbers it carries for display.
   */
  datatype EventData =
    | FightStart
    | RoundMarker(round: int)
    | PlayerHit(damage: nat, opponentHealth: int)
    | PlayerMiss
    | OpponentKnockedOut
    | PlayerStaminaUpdate(playerStamina: int)
    | OpponentHit(damage: nat, playerHealth: int)
    | OpponentMiss
    | PlayerKnockedOut
    | OpponentStaminaUpdate(opponentStamina: int)
    | Status(playerHealth: int, playerStamina: int, opponentHealth: int, opponentStamina: int)
    | DecisionHeader
    | DecisionResult(winner: Side)
    | Conclusion(playerWon: bool)
  {
    function Type(): EventType {
      match this
      case FightStart => Text
      case RoundMarker(_) => RoundMarkerType
      case PlayerHit(_, _) => PlayerAction
      case PlayerMiss => PlayerAction
      case OpponentKnockedOut => Text
      case PlayerStaminaUpdate(_) => StaminaUpdate
      case OpponentHit(_, _) => OpponentAction
      case OpponentMiss => OpponentAction
      case PlayerKnockedOut => Text
      case OpponentStaminaUpdate(_) => StaminaUpdate
      case Status(_, _, _, _) => Text
      case DecisionHeader => Text
      case DecisionResult(_) => Text
      case Conclusion(_) => FightConclusion
    }

    /** The `isCritical` emphasis flag: knockouts and the conclusion. */
    predicate IsCritical() {
      OpponentKnockedOut? || PlayerKnockedOut? || Conclusion?
    }

    /** The `isDamage` flag: landed strikes. */
    predicate IsDamage() {
      PlayerHit? || OpponentHit?
    }
  }

  /** An event with the unique id it was created with. */
  datatype FightEvent = FightEvent(id: nat, data: EventData)

  /** The state of one bout, from `initiateFight` until the result is applied. */
  datatype FightState = FightState(
    opponent: Option<Opponent>,
    snapshot: Option<PlayerSnapshot>,
    playerHealth: int,
    playerStamina: int,
    opponentHealth: int,
    opponentStamina: int,
    currentRound: nat,
    roundLog: seq<FightEvent>,        // queued, not yet displayed
    transcript: seq<FightEvent>,      // displayed so far
    isFightOver: bool,
    winner: Option<Side>,
    isProcessingRoundEvents: bool,
    uiReadyForNextEvent: bool)

  /** The fight state held between bouts. */
  const INITIAL_FIGHT_STATE: FightState :=
    FightState(None, None, 0, 0, 0, 0, 0, [], [], false, None, false, true)
}
