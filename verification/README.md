# ChampionMaker core, modelled in Dafny

ChampionMaker is a single-player boxing career game. Each week the player
trains, signs a sponsorship or fights. This project models the game's rules
as pure Dafny functions, plus a few methods, and proves properties about
them:

- **Fight resolver** (`fight.dfy`, module `FightResolver`).
  - `initiateFight` sets up a bout.
  - `_processSingleFightRound` resolves one round. The player strikes first,
    then the opponent unless already knocked out. Each side pays stamina for
    its strike. At the round limit the judges compare the two health
    fractions.
- **Playback scheduler** (`scheduler.dfy`, module `FightScheduler`).
  - Events of a resolved round are queued, then consumed one by one into the
    transcript.
  - Once the queue is empty, the next step advances the round counter.
  - The auto-resolve effect then plays the following round.
  - A bout invariant holds for every state reachable from a fresh bout.
- **Career** (`career.dfy`, module `Career`).
  - The weekly tick: news effects, recovery, and sponsorship income and
    expiry.
  - Training.
  - Promotion through the ranks (`checkRankUp`).
  - Which opponents a rank may challenge.
- **Sponsorships** (`sponsorships.dfy`, module `Sponsorships`).
  - The status shown for each offer.
  - Signing an offer.
- **Fight rewards** (`rewards.dfy`, module `FightRewards`).
  - Settling a finished bout: a world-champion win, a regular win or a loss.
  - For a regular bout, this is followed by the rank-up check and the week
    advance.
- **Records and tables** (`types.dfy` and `constants.dfy`, modules
  `GameTypes` and `GameConstants`).
  - The records of `types.ts`.
  - The tables of `constants.ts`, with the facts about them that the
    operations rely on.

Randomness is passed in, not drawn:

- Each strike is a `Strike`: `Miss`, or `Hit(damage)` carrying the final
  damage after stamina scaling.
- The stamina jitter is a `Jitter` in 0..2.
- The judges' coin is a boolean.

Other modelling choices:

- Event ids, which the game draws with `crypto.randomUUID`, become
  consecutive natural numbers from a caller-supplied `nextId`.
- Event messages become structured `EventData` values.
- Health fractions are compared by cross-multiplying.
- The promotion ratio `wins / (wins + losses) > 0.55` is compared as
  `20 * wins > 11 * (wins + losses)`.

Two behaviours of the code that a reader might not expect. The model
follows the code in both:

- A landed hit can deal 0 damage. The damage is first raised to at least 1
  with `Math.max(1, …)`, and then the stamina scaling floors it
  (`hooks/useGameLogic.ts:459-460`), which can bring it back to 0.
  `Strike.Hit` therefore allows 0.
- Asking for the next round while events are still queued changes nothing
  (`hooks/useGameLogic.ts:684`): `AdvanceRound` returns the state unchanged.

## Model

| member | source | states |
|---|---|---|
| GameConstants.RanksWellFormed | constants.ts:197 | the ladder has five distinct ranks with the champion last |
| GameConstants.RankUpWinsCoverAllButLast | constants.ts:197-204 | exactly the four non-champion ranks have a rank-up threshold, each positive |
| GameConstants.InitialStatsWellFormed | constants.ts:4-21 | a new player starts rookie, fully rested within the caps, with no contracts or traits |
| GameConstants.RestIsTheOnlyFreeOption | constants.ts:31-72 | resting is the only training option that costs no stamina and the only one that restores stamina |
| GameConstants.TrainingIdsDistinct | constants.ts:31-72 | each training type appears at most once in the table |
| GameConstants.EveryTrainingTypeListed | constants.ts:31-72 | every training type has an entry, so a lookup never misses |
| GameConstants.SponsorshipDurationsWellFormed | constants.ts:206-258 | an offer has a positive duration exactly when it is weekly |
| GameConstants.SponsorshipIdsDistinct | constants.ts:206-258 | offer ids are pairwise distinct |
| GameConstants.SponsorshipAmountsPositive | constants.ts:206-258 | every offer pays a positive amount |
| GameConstants.TableOffer | constants.ts:206-258 | any offer of the table is weekly exactly when it has a duration, which is then positive; it pays a positive amount; no other offer shares its id |
| GameTypes.FindFirst | hooks/useGameLogic.ts:724 | the lookup used for offers and training options finds nothing exactly when no element matches, and otherwise returns the first matching element |
| FightResolver.PlayerSubStep | hooks/useGameLogic.ts:453-473 | a landed hit leaves the opponent `max(0, health - damage)` and a miss leaves it unchanged; the hit knocks out exactly when the damage reaches the remaining health; stamina becomes `max(0, stamina - (7 + jitter))`, so between `max(0, stamina - 9)` and `max(0, stamina - 7)`; only events are appended |
| FightResolver.OpponentSubStep | hooks/useGameLogic.ts:474-493 | the opponent's turn mirrors the player's: a landed hit leaves the player `max(0, health - damage)`, stamina becomes `max(0, stamina - (6 + jitter))`, and the hit knocks the player out exactly when the damage reaches the remaining health |
| FightResolver.JudgesDecision | hooks/useGameLogic.ts:495-503 | the larger remaining health fraction wins; on equal fractions the coin decides |
| FightResolver.Exchange | hooks/useGameLogic.ts:453-493 | the player's blow and stamina cost always apply; a player knockout ends the exchange before the opponent strikes; otherwise the opponent's blow and its stamina cost follow, and a blow that takes the player's health to 0 ends the exchange for the opponent; the exchange ends exactly on one of these knockouts |
| FightResolver.Judge | hooks/useGameLogic.ts:495-504 | at the round limit a fight still running is decided by the judges, with nothing but the events and the outcome changing |
| FightResolver.Conclude | hooks/useGameLogic.ts:505-507 | an ended fight gets exactly one conclusion event, placed last and reporting the winner |
| FightResolver.Stamp | hooks/useGameLogic.ts:446-448 | every event of a round gets a fresh id, counting up from the caller's next id, with the conclusion still last |
| FightResolver.Opening | hooks/useGameLogic.ts:449-452 | the very first round of a fresh bout opens with the start line; every round then announces its number |
| FightResolver.RoundExchange | hooks/useGameLogic.ts:449-494 | after the opening, the round's values are exactly those the two blows leave (`BlowsLanded`); the round ends exactly on a knockout: the player's blow wins it for the player, otherwise the opponent's blow reaching the player's health wins it for the opponent; no conclusion is added yet |
| FightResolver.RoundCombat | hooks/useGameLogic.ts:449-507 | the round's values are those the blows leave, with the stamina ranges of both sides; the fight ends exactly on a knockout (won by the side that lands it) or at the round limit, so a round before the limit without a knockout leaves it running; a decision without a knockout goes to the larger health fraction; the round marker is announced and an ended fight is concluded last |
| FightResolver.ResolveRound | hooks/useGameLogic.ts:440-516 | a bout without contestants, or one already over, is unchanged; otherwise the new events, numbered from the next id, are appended after the queued ones; health and stamina are exactly what the two blows leave: the player pays `7 + jitter` stamina (clamped at 0), a landed blow takes its damage off the other side's health (clamped at 0), and a player knockout skips the opponent's turn; the fight ends exactly on a knockout, for the side that lands it, or at the round limit on the judges' decision |
| FightResolver.InitiateFight | hooks/useGameLogic.ts:530-556 | refused below 30 current health, then below 20 current stamina; otherwise the player is frozen in a snapshot and both fighters start from their current values at round 0 with empty logs |
| FightScheduler.FindEvent | hooks/useGameLogic.ts:564 | finds an event exactly when the transcript holds one with that id |
| FightScheduler.ConsumeNextEvent | hooks/useGameLogic.ts:558-576 | pops the head of the queue into the transcript unless its id is already there; the display becomes ready exactly when the queue empties; nothing else changes |
| FightScheduler.AdvanceRound | hooks/useGameLogic.ts:668-686 | an idle display moves to the next round with an empty queue, or past the limit marks the fight over; in every other state nothing changes |
| FightScheduler.ConsumeIdempotentWhenEmpty | hooks/useGameLogic.ts:573 | popping an empty queue twice has the same result as popping it once |
| FightScheduler.AdvancePastLimitLeavesNoWinner | hooks/useGameLogic.ts:680-682 | advancing an undecided bout at the round limit marks it over with no winner |
| FightScheduler.ReachableBoutsEndWithWinner | hooks/useGameLogic.ts:668-686 | in a bout reachable from its start, advancing never ends the fight without a winner and never passes round 5 |
| FightScheduler.AutoResolve | hooks/useGameLogic.ts:691-695 | a round is resolved, with everything `ResolveRound` promises, exactly when the fight has started, is not over, and the display is idle with an empty queue; otherwise nothing changes |
| FightScheduler.InitiateEstablishesInvariant | hooks/useGameLogic.ts:530-556 | a freshly started bout satisfies the bout invariant |
| FightScheduler.ConsumePreservesInvariant | hooks/useGameLogic.ts:558-576 | consuming an event keeps the invariant and keeps the transcript followed by the queue unchanged |
| FightScheduler.ResolveKeepsInvariant | hooks/useGameLogic.ts:440-516 | resolving a round from an idle state keeps the invariant, with new ids above every old one |
| FightScheduler.StepPreservesInvariant | hooks/useGameLogic.ts:668-695 | stepping keeps the invariant; an ended bout is left alone; an idle running bout resolves exactly the next round |
| FightScheduler.DrainTransfersInOrder | hooks/useGameLogic.ts:558-576 | draining a queue with fresh ids moves all its events, in order, to the end of the transcript and leaves the display idle |
| FightScheduler.DrainedBoutEndsWithConclusion | hooks/useGameLogic.ts:505-507 | once a finished bout is drained, its transcript ends in its one conclusion event, which reports the winner |
| FightScheduler.DrainKeepsOutcome | hooks/useGameLogic.ts:558-576 | draining never changes whether the fight is over or who won |
| Career.Clamp | hooks/useGameLogic.ts:216 | the clamped value lies between the bounds and equals the input when the input already does |
| Career.InitialStatsBounded | constants.ts:4-21 | the new player is within every range the career keeps |
| Career.ApplyNewsEffect | hooks/useGameLogic.ts:207-236 | each news effect changes only its target: money and reputation move by the value and drop to 0 when the sum is negative; current health and stamina move by the value, clamped to 0 and to the player's maximum; attribute effects behave as `NewsOnAttribute` |
| Career.NewsOnAttribute | hooks/useGameLogic.ts:218-230 | an attribute moves by the value, clamped to 0 and to 100; lowering maximum stamina or health caps the current value by the new maximum; nothing else changes |
| Career.NewsEffectKeepsBounds | hooks/useGameLogic.ts:207-236 | a news effect keeps every value in range |
| Career.ApplyNewsEffects | hooks/useGameLogic.ts:205-238 | the week's news keeps the career in range and never touches name, record, rank, contracts or traits; without a money effect, funds are unchanged |
| Career.SettleContracts | hooks/useGameLogic.ts:259-271 | the contract loop collects exactly the total income, the shortened survivors and the expired ids |
| Career.WeeklyTick | hooks/useGameLogic.ts:253-277 | the tick pays the contracts' total, keeps the survivors and records the expired ids; stamina recovers by 3 and health by 1, and each is set to its maximum when the recovery would reach or pass it (so a value above its maximum is pulled down); nothing else changes |
| Career.WeeklyTickKeepsBounds | hooks/useGameLogic.ts:253-277 | the tick keeps the career in range |
| Career.AdvanceWeek | hooks/useGameLogic.ts:249-279 | the week moves on, the news applies before the tick, the career stays in range, and the record and rank are untouched |
| Career.SumAmountsNonNegative | hooks/useGameLogic.ts:263 | contracts with non-negative amounts give non-negative income |
| Career.SurvivorsAreShortenedContracts | hooks/useGameLogic.ts:264-266 | a contract survives exactly when it had more than one week left, and survives one week shorter |
| Career.ExpiredIdsAreRunOutContracts | hooks/useGameLogic.ts:267-268 | an id is recorded as expired exactly when its contract had at most one week left |
| Career.IncomeAddsUp | hooks/useGameLogic.ts:263 | income over two lists of contracts is the sum of their incomes |
| Career.SurvivorsKeepOrder | hooks/useGameLogic.ts:262-266 | the survivors of two lists of contracts are the survivors of the first followed by those of the second |
| Career.ExpiredIdsKeepOrder | hooks/useGameLogic.ts:262-275 | expired ids are recorded in the order the contracts were signed |
| Career.EveryContractAccountedFor | hooks/useGameLogic.ts:262-271 | every contract either survives the week or is recorded as expired |
| Career.SurvivorsKeepAmounts | hooks/useGameLogic.ts:266 | survivors keep their non-negative amounts |
| Career.ApplyTrainingEffect | hooks/useGameLogic.ts:295-309 | an attribute gain is capped at 100 (the result is 100 when the sum passes it) and touches no other attribute; raising maximum stamina or health caps the current value by it; a health change is clamped to 0..100 (not to the player's maximum); a stamina change is capped at the player's maximum stamina |
| Career.TrainingEffectKeepsBounds | hooks/useGameLogic.ts:295-309 | an effect that only raises attributes keeps the career in range |
| Career.ApplyTrainingEffects | hooks/useGameLogic.ts:292-311 | the effects leave name, record, rank, money and contracts alone, never lower an attribute, and do not raise current stamina unless one restores it |
| Career.TrainingEffectsKeepBounds | hooks/useGameLogic.ts:292-311 | effects that only raise attributes keep the career in range |
| Career.TrainingKeepsCurrentStamina | hooks/useGameLogic.ts:292-311 | effects that raise attributes and restore no stamina leave current stamina where it was, for a player within range |
| Career.TrainingTableGainsOnly | constants.ts:31-72 | every option only raises attributes, and only resting restores stamina |
| Career.TrainWith | hooks/useGameLogic.ts:284-311 | training is refused exactly when current stamina is below the cost; otherwise the cost is paid, clamped at 0, before the effects apply in order; for a player in range and an option that only raises attributes without restoring stamina, current stamina ends exactly the cost lower |
| Career.Train | hooks/useGameLogic.ts:282-311 | every training type is found, refused exactly when stamina falls short, keeps the career in range, and every option but resting spends stamina |
| Career.TrainIs | hooks/useGameLogic.ts:283 | training by a type trains with the table's option of that type |
| Career.EffectsStep | hooks/useGameLogic.ts:292 | an option's effects apply in the order they are listed |
| Career.SandbagOption | constants.ts:32-39 | the bag option is refused below 12 stamina and otherwise costs exactly 12 stamina and raises strength and technique by 1, capped at 100 |
| Career.SandbagGains | constants.ts:32-39 | training on the bag is refused below 12 stamina; otherwise it costs 12 stamina and raises strength and technique by 1, capped at 100, and changes nothing else |
| Career.RoadworkOption | constants.ts:40-47 | the roadwork option is refused below 18 stamina and otherwise costs 18 stamina, raises maximum stamina by 2 and speed by 1 |
| Career.RoadworkGains | constants.ts:40-47 | roadwork is refused below 18 stamina; otherwise it costs 18 stamina, raises maximum stamina by 2 and speed by 1 (capped at 100), caps current stamina by the new maximum, and changes nothing else |
| Career.SparringEffects | constants.ts:52 | sparring's four effects raise strength, speed and technique by 1 and take 12 health, clamped to 0..100 |
| Career.SparringOption | constants.ts:48-55 | the sparring option is refused below 22 stamina and otherwise costs 22 stamina and applies its four effects |
| Career.SparringGains | constants.ts:48-55 | sparring is refused below 22 stamina; otherwise it costs 22 stamina, raises strength, speed and technique by 1 (capped at 100), takes 12 health (not below 0), and changes nothing else |
| Career.WeightLiftingOption | constants.ts:56-63 | the weight-lifting option is refused below 18 stamina and otherwise costs 18 stamina and raises strength by 2 |
| Career.WeightLiftingGains | constants.ts:56-63 | weight lifting is refused below 18 stamina; otherwise it costs 18 stamina, raises strength by 2 (capped at 100), and changes nothing else |
| Career.RestOption | constants.ts:64-71 | the rest option is free and gives back 25 health and 30 stamina |
| Career.RestGains | constants.ts:64-71 | resting costs nothing; it gives back 25 health, capped at 100 rather than the player's maximum, and 30 stamina, capped at the player's maximum, and changes nothing else |
| Career.RestCanLiftHealthAboveMaximum | hooks/useGameLogic.ts:296 | resting can lift current health to 100 above a player's lowered maximum |
| Career.HandleTraining | hooks/useGameLogic.ts:282-327 | a refused option changes nothing; otherwise, when the health before training was positive, the week advances and the news and weekly tick apply to the trained stats; when it was not, the game is over with the trained stats |
| Career.CheckRankUp | hooks/useGameLogic.ts:329-437 | a player is promoted exactly when the rank's wins are reached with no losses or a ratio above 0.55; a promotion moves up one rank with 10 reputation and changes nothing else; the champion and unknown ranks stay |
| Career.RequiredRankIndex | hooks/useGameLogic.ts:521 | an opponent's required rank index is -1 exactly when no rank is required or the rank is not in the table, and otherwise the position of the first occurrence of that rank |
| Career.FilterOpponents | hooks/useGameLogic.ts:520-527 | an opponent is kept exactly when the champion asks or it requires at most one rank above the player; when every opponent is allowed the list is unchanged |
| Career.FilterKeepsOrder | hooks/useGameLogic.ts:520-527 | filtering a concatenation filters each part and keeps them in order |
| Career.FilterOne | hooks/useGameLogic.ts:520-527 | a single opponent is kept exactly when the rank allows them, so with `FilterKeepsOrder` the result is the allowed opponents in table order, repetitions included |
| Career.AvailableOpponents | hooks/useGameLogic.ts:518-528 | the available opponents are exactly those the player's rank may fight |
| Career.AvailableKeepsOrder | hooks/useGameLogic.ts:518-528 | the available list of a concatenated table is the available list of each part, in order |
| Career.ChampionSeesEveryone | hooks/useGameLogic.ts:523 | the champion sees every opponent, in table order |
| Career.AvailabilityGrowsWithRank | hooks/useGameLogic.ts:518-528 | a higher rank keeps access to every opponent a lower rank may fight |
| Career.UnknownRankSeesOnlyFirstTier | hooks/useGameLogic.ts:519-524 | a rank outside the table sees only opponents requiring no rank or the first |
| Sponsorships.FindActive | components/Sponsorships.tsx:32-33 | finds a contract exactly when one with the id is active, and returns the first |
| Sponsorships.WeeklyCount | components/Sponsorships.tsx:26 | counts the weekly contracts: none when no contract is weekly, all of them when every contract is |
| Sponsorships.WeeklyCountOfOne | components/Sponsorships.tsx:26 | a single contract counts 1 exactly when it is weekly |
| Sponsorships.WeeklyCountAddsUp | components/Sponsorships.tsx:26 | the count of two lists of contracts together is the sum of their counts, so with `WeeklyCountOfOne` the count is the number of weekly contracts |
| Sponsorships.Status | components/Sponsorships.tsx:28-46 | each status holds exactly when its own check applies and every earlier check does not: busy; active (with the first contract's remaining weeks); completed; too little reputation; the weekly cap for a weekly offer; available when no check applies |
| Sponsorships.OneTimeOffersIgnoreTheCap | components/Sponsorships.tsx:42-44 | the weekly cap never holds back a one-time offer |
| Sponsorships.BusyDisablesEverything | components/Sponsorships.tsx:29-31 | a busy player can sign nothing |
| Sponsorships.SignOffer | hooks/useGameLogic.ts:728-755 | signing succeeds exactly when every check passes; a one-time offer pays and is recorded as completed; a weekly one is appended for its full duration; at most two weekly contracts run |
| Sponsorships.Sign | hooks/useGameLogic.ts:723-755 | an unknown id is refused; a known id signs the one table entry with it; the career stays in range |
| Sponsorships.AvailableExactlyWhenSignable | hooks/useGameLogic.ts:723-742 | the list shows a table offer as available to a player who is not busy exactly when signing it succeeds |
| Sponsorships.HandleSignSponsorship | hooks/useGameLogic.ts:723-757 | a refused offer changes nothing; a signed one advances the week, with the news and weekly tick applied to the signed stats; the career stays in range |
| FightRewards.UnderdogBonus | hooks/useGameLogic.ts:617-620 | the bonus is positive exactly when both ranks are known and the opponent's is higher, and is then 5 per rank of difference |
| FightRewards.OpponentRankIndex | hooks/useGameLogic.ts:617 | the opponent's rank index is -1 or a rank of the table |
| FightRewards.SettleFight | hooks/useGameLogic.ts:581-652 | nothing until the bout is over and drained; the champion win pays `5000 + 200 * rank` money and `500 + 50 * rank` reputation, raises technique by 5 (capped at 100), crowns the player and clears the game; a regular win pays by rank with the underdog bonus and raises technique by 1 (capped); a loss costs 7 reputation; reputation stays at or above 0 |
| FightRewards.UnderdogWinsPayMore | hooks/useGameLogic.ts:612-628 | beating a higher-ranked opponent pays strictly more reputation and money than beating one at or below the player's rank |
| FightRewards.RewardsGrowWithOpponentRank | hooks/useGameLogic.ts:617-625 | a higher-ranked opponent never pays less |
| FightRewards.SettleKeepsBounds | hooks/useGameLogic.ts:583-648 | settling a bout keeps the career in range |
| FightRewards.ConcludeFight | hooks/useGameLogic.ts:581-664 | the champion win ends the game with no week advance; otherwise the settled stats, promoted by `checkRankUp` for a winner, are the result, with the week's news and tick applied when the week advances; the week advances exactly when the health before settlement (plus, for a winner, the bout's final health) is positive |

The advance branch at `hooks/useGameLogic.ts:680-682` marks a bout over
without choosing a winner. `AdvancePastLimitLeavesNoWinner` shows that
behaviour for a direct call. `ReachableBoutsEndWithWinner` shows that the
branch cannot end a bout that started normally, because the resolver already
decides every bout at the round limit.

## Left out

- React state plumbing, timers, the autopilot mode and `localStorage` persistence are not modelled. The model's functions take the state and return the next one.
- The hit chance and damage formulas use floating point, `Math.random` and trait multipliers. They are not modelled: every draw is an input, and `Hit` carries the final damage.
- The selection of the week's news (`GAME_NEWS_EVENTS`, a random index, eligibility) is not modelled. `AdvanceWeek` takes the chosen effects as a parameter.
- The difficulty scaling that builds `OPPONENTS` uses `Math.round` on floats. It is not modelled: opponent lists are parameters.
- Log, modal and news message strings are not modelled; events are structured values.
- The `gamePhase` checks are not modelled: the one guarding the week advance after a fight (line 661) and the game-over effect on zero health.
- The judges' fractions divide by the maxima. With a maximum of 0 the source compares NaN or Infinity. The model compares cross-products instead, which agrees whenever both maxima are positive.
- `crypto.randomUUID` event ids are modelled as consecutive natural numbers.
- FightRewards.ConcludeFight: the promotion check is applied to the settled stats. In the source, `checkRankUp` is queued as a separate state update after the settlement update; the model assumes the two run in that order.
- FightScheduler.AutoResolve: the effect at `hooks/useGameLogic.ts:692` also requires `gamePhase === GamePhase.FIGHTING`. The model has no game phase, so `WantsRound` and `AutoResolve` drop that guard and may resolve a round of a bout that is running in any phase.
- Sponsorships.HandleSignSponsorship: the checks at `hooks/useGameLogic.ts:727-742` read the closure's `playerStats`, while the update at lines 744-753 is applied to the updater's `prev`. The model runs both on the same stats, so it does not distinguish a stale closure from the current state.
- Career.HandleTraining: the stale stamina check uses the same stats the update is applied to, so the model does not distinguish the closure's `playerStats` from the updater's `prev`.
- The training option fields `name`, `description` and `duration` are not modelled.
