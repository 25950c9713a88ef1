/**
 The event playback scheduler. A resolved round leaves its events queued in
 `roundLog`; the display pulls them one at a time into the transcript, and
 once the queue is empty the next step advances the round counter and,
 because the display is then ready, immediately resolves the next round.
 */
module FightScheduler {
  import opened GameTypes
  import opened FightResolver

  /** Some event of the list carries the given id. */
  predicate HasEventId(es: seq<FightEvent>, id: nat) {
    exists i :: 0 <= i < |es| && es[i].id == id
  }

  /** The first event with the given id (`Array.prototype.find`). */
  function FindEvent(es: seq<FightEvent>, id: nat): (r: Option<FightEvent>)
    ensures r.Some? <==> HasEventId(es, id)
    ensures r.Some? ==> r.value in es && r.value.id == id
  {
    if |es| == 0 then None
    else if es[0].id == id then Some(es[0])
    else
      var r := FindEvent(es[1..], id);
      assert HasEventId(es[1..], id) ==> HasEventId(es, id) by {
        if HasEventId(es[1..], id) {
          var i :| 0 <= i < |es[1..]| && es[1..][i].id == id;
          assert es[i + 1].id == id;
        }
      }
      assert HasEventId(es, id) ==> HasEventId(es[1..], id) by {
        if HasEventId(es, id) {
          var i :| 0 <= i < |es| && es[i].id == id;
          assert i != 0;
          assert es[1..][i - 1].id == id;
        }
      }
      r
  }

  datatype Consumed = Consumed(event: Option<FightEvent>, state: FightState)

  /**
   Pops the next queued event for display (`consumeNextFightDisplayEvent`).
   The popped event is added to the transcript unless an event with its id
   is already there; the display becomes ready for the next step exactly
   when the queue is left empty. On an empty queue only the flags change.
   */
  function ConsumeNextEvent(fs: FightState): (r: Consumed)
    ensures |fs.roundLog| == 0 ==>
      && r.event.None?
      && r.state == fs.(isProcessingRoundEvents := false, uiReadyForNextEvent := true)
    ensures |fs.roundLog| > 0 ==>
      && r.event == Some(fs.roundLog[0])
      && r.state.roundLog == fs.roundLog[1..]
      && (HasEventId(fs.transcript, fs.roundLog[0].id) ==> r.state.transcript == fs.transcript)
      && (!HasEventId(fs.transcript, fs.roundLog[0].id) ==> r.state.transcript == fs.transcript + [fs.roundLog[0]])
      && r.state.uiReadyForNextEvent == (|fs.roundLog| == 1)
      && r.state.isProcessingRoundEvents == !r.state.uiReadyForNextEvent
    // nothing but the queue, the transcript and the two flags ever changes
    ensures r.state.(roundLog := fs.roundLog, transcript := fs.transcript,
                     isProcessingRoundEvents := fs.isProcessingRoundEvents,
                     uiReadyForNextEvent := fs.uiReadyForNextEvent) == fs
  {
    if |fs.roundLog| > 0 then
      var e := fs.roundLog[0];
      var rest := fs.roundLog[1..];
      var transcript := if FindEvent(fs.transcript, e.id).Some? then fs.transcript else fs.transcript + [e];
      Consumed(Some(e), fs.(roundLog := rest, transcript := transcript,
                            isProcessingRoundEvents := |rest| > 0,
                            uiReadyForNextEvent := |rest| == 0))
    else
      Consumed(None, fs.(isProcessingRoundEvents := false, uiReadyForNextEvent := true))
  }

  /** The display has drained the queue and waits for the next step. */
  predicate Idle(fs: FightState) {
    fs.uiReadyForNextEvent && !fs.isProcessingRoundEvents
  }

  /**
   The not-over branch of `processNextFightAction`. When the display is
   idle, the round counter moves on and the queue is cleared, except past
   the round limit, where the fight is marked over (and its winner left as
   it was). In any other state the call changes nothing.
   */
  function AdvanceRound(fs: FightState): (r: FightState)
    ensures fs.isFightOver || !Idle(fs) ==> r == fs
    ensures !fs.isFightOver && Idle(fs) && fs.currentRound < MAX_FIGHT_ROUNDS ==>
      && r.currentRound == fs.currentRound + 1
      && r.roundLog == [] && Idle(r) && !r.isFightOver
    ensures !fs.isFightOver && Idle(fs) && fs.currentRound >= MAX_FIGHT_ROUNDS ==>
      && r.isFightOver && r.winner == fs.winner && !r.uiReadyForNextEvent
      && r.currentRound == fs.currentRound && r.roundLog == fs.roundLog
    ensures r.currentRound <= Max(fs.currentRound, MAX_FIGHT_ROUNDS)
    ensures r.transcript == fs.transcript && r.winner == fs.winner
    ensures r.playerHealth == fs.playerHealth && r.opponentHealth == fs.opponentHealth
    ensures r.playerStamina == fs.playerStamina && r.opponentStamina == fs.opponentStamina
    ensures r.opponent == fs.opponent && r.snapshot == fs.snapshot
  {
    if fs.isFightOver then fs
    else if Idle(fs) then
      if fs.currentRound < MAX_FIGHT_ROUNDS || fs.currentRound == 0 then
        fs.(currentRound := fs.currentRound + 1,
            isProcessingRoundEvents := false, uiReadyForNextEvent := true, roundLog := [])
      else
        fs.(isFightOver := true, uiReadyForNextEvent := false)
    else fs
  }

  /** The condition under which the fight screen asks for the next round. */
  predicate WantsRound(fs: FightState) {
    !fs.isFightOver && fs.currentRound > 0 && Idle(fs) && |fs.roundLog| == 0
  }

  /** The effect that resolves a round as soon as the display is ready for one. */
  function AutoResolve(fs: FightState, d: RoundDraws, nextId: nat): (r: FightState)
    ensures !WantsRound(fs) ==> r == fs
    ensures WantsRound(fs) && Running(fs) ==> |r.roundLog| > 0 && !Idle(r)
    ensures WantsRound(fs) ==> r == ResolveRound(fs, d, nextId)
  {
    if WantsRound(fs) then ResolveRound(fs, d, nextId) else fs
  }

  /** One press of "next": advance the round, then let the effect resolve it. */
  function Step(fs: FightState, d: RoundDraws, nextId: nat): FightState {
    AutoResolve(AdvanceRound(fs), d, nextId)
  }

  // ---------------------------------------------------------------------
  // The invariant of a bout, from its start to its end

  predicate DistinctIds(es: seq<FightEvent>) {
    forall i, j :: 0 <= i < j < |es| ==> es[i].id != es[j].id
  }

  predicate IdsBelow(es: seq<FightEvent>, bound: nat) {
    forall i :: 0 <= i < |es| ==> es[i].id < bound
  }

  /**
   What holds of every bout reachable from `InitiateFight` by consuming events
   and stepping, when every id below `nextId` has been handed out already.
   */
  predicate BoutInvariant(fs: FightState, nextId: nat) {
    var all := fs.transcript + fs.roundLog;
    && fs.opponent.Some? && fs.snapshot.Some?
    && fs.playerHealth >= 0 && fs.playerStamina >= 0
    && fs.opponentHealth >= 0 && fs.opponentStamina >= 0
    && fs.currentRound <= MAX_FIGHT_ROUNDS
    && (!fs.isFightOver ==> fs.currentRound < MAX_FIGHT_ROUNDS)
    && (fs.isFightOver <==> fs.winner.Some?)
    && (fs.uiReadyForNextEvent <==> |fs.roundLog| == 0)
    && fs.isProcessingRoundEvents == !fs.uiReadyForNextEvent
    && DistinctIds(all) && IdsBelow(all, nextId)
    && (fs.isFightOver ==> ConcludedLog(all, fs.winner == Some(PlayerSide)))
    && (!fs.isFightOver ==> OpenLog(all))
  }

  /** A freshly started bout satisfies the invariant. */
  lemma InitiateEstablishesInvariant(stats: PlayerStats, opponent: Opponent, nextId: nat)
    requires opponent.stats.health >= 0 && opponent.stats.stamina >= 0
    requires InitiateFight(stats, opponent).Started?
    ensures BoutInvariant(InitiateFight(stats, opponent).state, nextId)
  {
  }

  /** An event whose id is distinct from all others is not already in the transcript. */
  lemma FreshHead(t: seq<FightEvent>, l: seq<FightEvent>)
    requires |l| > 0 && DistinctIds(t + l)
    ensures !HasEventId(t, l[0].id)
  {
    forall i | 0 <= i < |t| ensures t[i].id != l[0].id {
      assert (t + l)[i] == t[i] && (t + l)[|t|] == l[0];
    }
  }

  /** Appending events with consecutive ids from `nextId` keeps all ids distinct. */
  lemma AppendFreshIds(t: seq<FightEvent>, n: seq<FightEvent>, nextId: nat)
    requires DistinctIds(t) && IdsBelow(t, nextId)
    requires forall i :: 0 <= i < |n| ==> n[i].id == nextId + i
    ensures DistinctIds(t + n) && IdsBelow(t + n, nextId + |n|)
  {
    var all := t + n;
    assert forall i :: 0 <= i < |t| ==> all[i] == t[i];
    assert forall i :: |t| <= i < |all| ==> all[i] == n[i - |t|];
  }

  /** Appending a concluded batch to an open transcript gives a concluded log. */
  lemma AppendBatch(t: seq<FightEvent>, n: seq<FightEvent>, over: bool, playerWon: bool)
    requires OpenLog(t)
    requires over ==> ConcludedLog(n, playerWon)
    requires !over ==> OpenLog(n)
    ensures over ==> ConcludedLog(t + n, playerWon)
    ensures !over ==> OpenLog(t + n)
  {
    var all := t + n;
    assert forall i :: 0 <= i < |t| ==> all[i] == t[i];
    assert forall i :: |t| <= i < |all| ==> all[i] == n[i - |t|];
  }

  /**
   A bout whose transcript is open and whose queue holds exactly one freshly
   numbered round batch, concluded iff the fight is over, satisfies the
   invariant.
   */
  lemma BatchInvariant(r: FightState, nextId: nat)
    requires r.opponent.Some? && r.snapshot.Some?
    requires r.playerHealth >= 0 && r.playerStamina >= 0 && r.opponentHealth >= 0 && r.opponentStamina >= 0
    requires r.currentRound <= MAX_FIGHT_ROUNDS && (!r.isFightOver ==> r.currentRound < MAX_FIGHT_ROUNDS)
    requires r.isFightOver <==> r.winner.Some?
    requires |r.roundLog| > 0 && !r.uiReadyForNextEvent && r.isProcessingRoundEvents
    requires DistinctIds(r.transcript) && IdsBelow(r.transcript, nextId) && OpenLog(r.transcript)
    requires forall i :: 0 <= i < |r.roundLog| ==> r.roundLog[i].id == nextId + i
    requires r.isFightOver ==> ConcludedLog(r.roundLog, r.winner == Some(PlayerSide))
    requires !r.isFightOver ==> OpenLog(r.roundLog)
    ensures BoutInvariant(r, nextId + |r.roundLog|)
  {
    AppendFreshIds(r.transcript, r.roundLog, nextId);
    AppendBatch(r.transcript, r.roundLog, r.isFightOver, r.winner == Some(PlayerSide));
  }

  /**
   Resolving a round from an idle bout with an empty queue yields a bout that
   satisfies the invariant again, with the round's events queued.
   */
  lemma ResolveKeepsInvariant(a: FightState, d: RoundDraws, nextId: nat)
    requires Running(a) && a.roundLog == [] && 0 < a.currentRound <= MAX_FIGHT_ROUNDS
    requires a.winner.None?
    requires a.playerHealth >= 0 && a.playerStamina >= 0 && a.opponentHealth >= 0 && a.opponentStamina >= 0
    requires DistinctIds(a.transcript) && IdsBelow(a.transcript, nextId) && OpenLog(a.transcript)
    ensures var r := ResolveRound(a, d, nextId);
      BoutInvariant(r, nextId + |r.roundLog|) && |r.roundLog| > 0 && r.transcript == a.transcript
  {
    ResolvedScalars(a, d, nextId);
    ResolvedIds(a, d, nextId);
    ResolvedOutcome(a, d, nextId);
    BatchInvariant(ResolveRound(a, d, nextId), nextId);
  }

  /** The scalar part of the invariant after resolving a round from an idle bout. */
  lemma ResolvedScalars(a: FightState, d: RoundDraws, nextId: nat)
    requires Running(a) && a.roundLog == [] && 0 < a.currentRound <= MAX_FIGHT_ROUNDS
    requires a.winner.None?
    requires a.playerHealth >= 0 && a.playerStamina >= 0 && a.opponentHealth >= 0 && a.opponentStamina >= 0
    ensures var r := ResolveRound(a, d, nextId);
      && r.opponent.Some? && r.snapshot.Some?
      && r.playerHealth >= 0 && r.playerStamina >= 0 && r.opponentHealth >= 0 && r.opponentStamina >= 0
      && r.currentRound <= MAX_FIGHT_ROUNDS && (!r.isFightOver ==> r.currentRound < MAX_FIGHT_ROUNDS)
      && (r.isFightOver <==> r.winner.Some?)
      && |r.roundLog| > 0 && !r.uiReadyForNextEvent && r.isProcessingRoundEvents
      && r.transcript == a.transcript
  {
  }

  /** Resolving from an empty queue queues events numbered consecutively from `nextId`. */
  lemma ResolvedIds(a: FightState, d: RoundDraws, nextId: nat)
    requires Running(a) && a.roundLog == []
    ensures NumberedFrom(ResolveRound(a, d, nextId).roundLog, nextId)
  {
    var r := ResolveRound(a, d, nextId);
    assert r.roundLog[|a.roundLog|..] == r.roundLog;
  }

  /** Resolving from an empty queue queues a batch that is concluded exactly when the fight ended. */
  lemma ResolvedOutcome(a: FightState, d: RoundDraws, nextId: nat)
    requires Running(a) && a.roundLog == []
    ensures var r := ResolveRound(a, d, nextId);
      && (r.isFightOver ==> ConcludedLog(r.roundLog, r.winner == Some(PlayerSide)))
      && (!r.isFightOver ==> OpenLog(r.roundLog))
  {
    var r := ResolveRound(a, d, nextId);
    assert r.roundLog[|a.roundLog|..] == r.roundLog;
  }

  /**
   Consuming keeps the invariant, and while ids are unique it moves the head
   of the queue to the end of the transcript without losing or reordering
   anything.
   */
  lemma ConsumePreservesInvariant(fs: FightState, nextId: nat)
    requires BoutInvariant(fs, nextId)
    ensures BoutInvariant(ConsumeNextEvent(fs).state, nextId)
    ensures var s := ConsumeNextEvent(fs).state; s.transcript + s.roundLog == fs.transcript + fs.roundLog
  {
    if |fs.roundLog| > 0 {
      FreshHead(fs.transcript, fs.roundLog);
      var s := ConsumeNextEvent(fs).state;
      assert s.transcript + s.roundLog == fs.transcript + fs.roundLog by {
        assert s.transcript == fs.transcript + [fs.roundLog[0]];
        assert fs.roundLog == [fs.roundLog[0]] + fs.roundLog[1..];
      }
    }
  }

  /**
   Stepping keeps the invariant: a bout that is not over and whose display is
   idle resolves exactly the next round, and once the fight is over stepping
   changes nothing. The new events use ids from `nextId` on.
   */
  lemma StepPreservesInvariant(fs: FightState, d: RoundDraws, nextId: nat)
    requires BoutInvariant(fs, nextId)
    ensures var r := Step(fs, d, nextId);
      && BoutInvariant(r, nextId + |r.roundLog|)
      && r.transcript == fs.transcript
      && (fs.isFightOver ==> r == fs)
      && (!fs.isFightOver && Idle(fs) ==> r.currentRound == fs.currentRound + 1 && |r.roundLog| > 0)
  {
    if !fs.isFightOver && Idle(fs) {
      var a := AdvanceRound(fs);
      assert fs.roundLog == [] && fs.transcript + fs.roundLog == fs.transcript;
      assert WantsRound(a) && Running(a);
      ResolveKeepsInvariant(a, d, nextId);
    }
  }

  /** On an empty queue a second pop changes nothing more than the first. */
  lemma ConsumeIdempotentWhenEmpty(fs: FightState)
    requires |fs.roundLog| == 0
    ensures ConsumeNextEvent(ConsumeNextEvent(fs).state) == ConsumeNextEvent(fs)
  {
  }

  /**
   Advancing past the round limit marks a bout over without naming a winner;
   a bout in that state has reached the limit without the resolver deciding it.
   */
  lemma AdvancePastLimitLeavesNoWinner(fs: FightState)
    requires !fs.isFightOver && Idle(fs) && fs.currentRound >= MAX_FIGHT_ROUNDS && fs.winner.None?
    ensures AdvanceRound(fs).isFightOver && AdvanceRound(fs).winner.None?
  {
  }

  /**
   That branch is never taken in a bout that started normally: the resolver
   decides every bout that reaches the round limit, so whenever advancing
   ends a reachable bout, it has a winner.
   */
  lemma ReachableBoutsEndWithWinner(fs: FightState, nextId: nat)
    requires BoutInvariant(fs, nextId)
    ensures AdvanceRound(fs).isFightOver ==> AdvanceRound(fs).winner.Some?
    ensures AdvanceRound(fs).currentRound <= MAX_FIGHT_ROUNDS
  {
  }

  /** Pops `n` events in a row. */
  function Drain(fs: FightState, n: nat): FightState
    decreases n
  {
    if n == 0 then fs else Drain(ConsumeNextEvent(fs).state, n - 1)
  }

  /**
   Draining a queue of events whose ids are fresh moves every one of them,
   in order, to the end of the transcript, and leaves the display idle.
   */
  lemma {:induction false} DrainTransfersInOrder(fs: FightState)
    requires |fs.roundLog| > 0
    requires DistinctIds(fs.transcript + fs.roundLog)
    ensures var r := Drain(fs, |fs.roundLog|);
      && r.transcript == fs.transcript + fs.roundLog
      && r.roundLog == [] && Idle(r)
    decreases |fs.roundLog|
  {
    FreshHead(fs.transcript, fs.roundLog);
    var s := ConsumeNextEvent(fs).state;
    assert s.transcript == fs.transcript + [fs.roundLog[0]];
    assert s.transcript + s.roundLog == fs.transcript + fs.roundLog by {
      assert fs.roundLog == [fs.roundLog[0]] + fs.roundLog[1..];
    }
    if |s.roundLog| > 0 {
      DrainTransfersInOrder(s);
    }
  }

  /**
   Draining a concluded bout leaves a transcript whose one conclusion event
   is its last, reporting the winner.
   */
  lemma DrainedBoutEndsWithConclusion(fs: FightState, nextId: nat)
    requires BoutInvariant(fs, nextId) && fs.isFightOver && |fs.roundLog| > 0
    ensures var r := Drain(fs, |fs.roundLog|);
      ConcludedLog(r.transcript, r.winner == Some(PlayerSide)) && r.roundLog == [] && r.isFightOver
  {
    DrainTransfersInOrder(fs);
    DrainKeepsOutcome(fs, |fs.roundLog|);
  }

  lemma {:induction false} DrainKeepsOutcome(fs: FightState, n: nat)
    ensures Drain(fs, n).isFightOver == fs.isFightOver && Drain(fs, n).winner == fs.winner
    decreases n
  {
    if n > 0 {
      DrainKeepsOutcome(ConsumeNextEvent(fs).state, n - 1);
    }
  }
}
