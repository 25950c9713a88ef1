/**
 Sponsorship contracts: the status the contract list shows for an offer, and
 signing one. A one-time offer pays out at once and is recorded as
 completed; a weekly offer becomes an active contract that the weekly tick
 pays out and counts down. At most two weekly contracts run at a time.
 */
module Sponsorships {
  import opened GameTypes
  import opened GameConstants
  import opened Career

  const MAX_ACTIVE_WEEKLY_CONTRACTS := 2

  /** Some active contract carries the id. */
  predicate IsActive(cs: seq<ActiveSponsorship>, id: string) {
    exists i :: 0 <= i < |cs| && cs[i].Id() == id
  }

  /** Position `i` holds the first contract with the id. */
  predicate FirstWithId(cs: seq<ActiveSponsorship>, i: int, id: string) {
    0 <= i < |cs| && cs[i].Id() == id && forall j :: 0 <= j < i ==> cs[j].Id() != id
  }

  /** The first active contract with the id (`Array.prototype.find`). */
  function FindActive(cs: seq<ActiveSponsorship>, id: string): (r: Option<ActiveSponsorship>)
    ensures r.Some? <==> IsActive(cs, id)
    ensures r.Some? ==> exists i :: FirstWithId(cs, i, id) && cs[i] == r.value
  {
    if |cs| == 0 then None
    else if cs[0].Id() == id then Some(cs[0])
    else
      var r := FindActive(cs[1..], id);
      assert IsActive(cs, id) ==> IsActive(cs[1..], id) by {
        if IsActive(cs, id) {
          var i :| 0 <= i < |cs| && cs[i].Id() == id;
          assert cs[1..][i - 1] == cs[i];
        }
      }
      assert r.Some? ==> exists i :: FirstWithId(cs, i, id) && cs[i] == r.value by {
        if r.Some? {
          var i :| FirstWithId(cs[1..], i, id) && cs[1..][i] == r.value;
          assert cs[i + 1] == r.value;
          forall j | 0 <= j < i + 1 ensures cs[j].Id() != id {
            if j > 0 {
              assert cs[j] == cs[1..][j - 1];
            }
          }
          assert FirstWithId(cs, i + 1, id);
        }
      }
      r
  }

  /** The number of active weekly contracts. */
  function WeeklyCount(cs: seq<ActiveSponsorship>): (n: nat)
    ensures n <= |cs|
    ensures n == 0 <== forall i :: 0 <= i < |cs| ==> cs[i].contract.benefitType != Weekly
    ensures n == |cs| <== forall i :: 0 <= i < |cs| ==> cs[i].contract.benefitType == Weekly
  {
    if |cs| == 0 then 0
    else WeeklyCount(cs[..|cs| - 1]) + (if cs[|cs| - 1].contract.benefitType == Weekly then 1 else 0)
  }

  /** A single contract counts exactly when it is weekly. */
  lemma WeeklyCountOfOne(c: ActiveSponsorship)
    ensures WeeklyCount([c]) == if c.contract.benefitType == Weekly then 1 else 0
  {
    assert [c][..0] == [];
  }

  /** Counting weekly contracts distributes over concatenation. */
  lemma {:induction false} WeeklyCountAddsUp(xs: seq<ActiveSponsorship>, ys: seq<ActiveSponsorship>)
    ensures WeeklyCount(xs + ys) == WeeklyCount(xs) + WeeklyCount(ys)
    decreases |ys|
  {
    if |ys| == 0 {
      assert xs + ys == xs;
    } else {
      var zs := ys[..|ys| - 1];
      assert (xs + ys)[..|xs + ys| - 1] == xs + zs;
      assert (xs + ys)[|xs + ys| - 1] == ys[|ys| - 1];
      WeeklyCountAddsUp(xs, zs);
    }
  }

  /** What the contract list shows for an offer, in the order the checks are made. */
  datatype SponsorshipStatus =
    | Busy                              // the player is occupied; nothing can be signed
    | ActiveFor(weeksRemaining: int)    // already running
    | Completed
    | ReputationTooLow
    | WeeklyCapReached
    | Available

  /**
   `getSponsorshipStatus`. The first matching condition decides: a busy
   player, an active contract (reporting its remaining weeks), a completed
   one, too little reputation, and for a weekly offer the weekly cap. Only
   the last status lets the player sign.
   */
  function Status(busy: bool, p: PlayerStats, s: Sponsorship): (r: SponsorshipStatus)
    ensures r == Busy <==> busy
    ensures r.ActiveFor? <==> !busy && IsActive(p.activeSponsorships, s.id)
    ensures r.ActiveFor? ==> r.weeksRemaining == FindActive(p.activeSponsorships, s.id).value.weeksRemaining
    ensures r == Completed <==>
      !busy && !IsActive(p.activeSponsorships, s.id) && s.id in p.completedSponsorshipIds
    ensures r == ReputationTooLow <==>
      && !busy
      && !IsActive(p.activeSponsorships, s.id)
      && s.id !in p.completedSponsorshipIds
      && p.reputation < s.reputationRequired
    ensures r == WeeklyCapReached <==>
      && !busy
      && !IsActive(p.activeSponsorships, s.id)
      && s.id !in p.completedSponsorshipIds
      && p.reputation >= s.reputationRequired
      && s.benefitType == Weekly && WeeklyCount(p.activeSponsorships) >= MAX_ACTIVE_WEEKLY_CONTRACTS
    ensures r == Available <==>
      && !busy
      && !IsActive(p.activeSponsorships, s.id)
      && s.id !in p.completedSponsorshipIds
      && p.reputation >= s.reputationRequired
      && !(s.benefitType == Weekly && WeeklyCount(p.activeSponsorships) >= MAX_ACTIVE_WEEKLY_CONTRACTS)
  {
    if busy then Busy
    else if FindActive(p.activeSponsorships, s.id).Some? then
      ActiveFor(FindActive(p.activeSponsorships, s.id).value.weeksRemaining)
    else if s.id in p.completedSponsorshipIds then Completed
    else if p.reputation < s.reputationRequired then ReputationTooLow
    else if s.benefitType == Weekly && WeeklyCount(p.activeSponsorships) >= MAX_ACTIVE_WEEKLY_CONTRACTS then WeeklyCapReached
    else Available
  }

  /** The weekly cap never holds back a one-time offer. */
  lemma OneTimeOffersIgnoreTheCap(busy: bool, p: PlayerStats, s: Sponsorship)
    requires s.benefitType == OneTime
    ensures Status(busy, p, s) != WeeklyCapReached
  {
  }

  /** Why `handleSignSponsorship` turns an offer down, in the order it checks. */
  datatype SignRefusal = UnknownOffer | InsufficientReputation | AlreadyCompleted | AlreadyActive | TooManyWeeklyContracts

  datatype SignResult = SignRefused(reason: SignRefusal) | Signed(stats: PlayerStats)

  /** Whether signing the offer passes every check of `handleSignSponsorship`. */
  predicate MaySign(p: PlayerStats, s: Sponsorship) {
    && p.reputation >= s.reputationRequired
    && s.id !in p.completedSponsorshipIds
    && !IsActive(p.activeSponsorships, s.id)
    && !(s.benefitType == Weekly && WeeklyCount(p.activeSponsorships) >= MAX_ACTIVE_WEEKLY_CONTRACTS)
  }

  /**
   Signing a given offer: refused if out of reach in reputation, already
   completed, already active, or a third weekly contract, in that order. A
   one-time offer then pays its amount and is recorded as completed; a
   weekly offer is appended to the active contracts for its full duration.
   The duration of a weekly offer is asserted present, not checked.
   */
  function SignOffer(p: PlayerStats, s: Sponsorship): (r: SignResult)
    requires s.benefitType == Weekly ==> s.durationWeeks.Some?
    ensures r.Signed? <==> MaySign(p, s)
    ensures r.SignRefused? ==> r.reason != UnknownOffer
    ensures r.Signed? && s.benefitType == OneTime ==>
      r.stats == p.(funds := p.funds + s.amount, completedSponsorshipIds := p.completedSponsorshipIds + [s.id])
    ensures r.Signed? && s.benefitType == Weekly ==>
      r.stats == p.(activeSponsorships := p.activeSponsorships + [ActiveSponsorship(s, s.durationWeeks.value)])
    ensures r.Signed? && Bounded(p) && s.amount >= 0 ==> Bounded(r.stats)
    ensures r.Signed? && WeeklyCount(p.activeSponsorships) <= MAX_ACTIVE_WEEKLY_CONTRACTS ==>
      WeeklyCount(r.stats.activeSponsorships) <= MAX_ACTIVE_WEEKLY_CONTRACTS
  {
    if p.reputation < s.reputationRequired then SignRefused(InsufficientReputation)
    else if s.id in p.completedSponsorshipIds then SignRefused(AlreadyCompleted)
    else if IsActive(p.activeSponsorships, s.id) then SignRefused(AlreadyActive)
    else if s.benefitType == Weekly && WeeklyCount(p.activeSponsorships) >= MAX_ACTIVE_WEEKLY_CONTRACTS then
      SignRefused(TooManyWeeklyContracts)
    else if s.benefitType == OneTime then
      Signed(p.(funds := p.funds + s.amount, completedSponsorshipIds := p.completedSponsorshipIds + [s.id]))
    else
      var contract := ActiveSponsorship(s, s.durationWeeks.value);
      AppendKeepsAmounts(p.activeSponsorships, contract);
      assert WeeklyCount(p.activeSponsorships + [contract]) == WeeklyCount(p.activeSponsorships) + 1 by {
        assert (p.activeSponsorships + [contract])[..|p.activeSponsorships|] == p.activeSponsorships;
      }
      Signed(p.(activeSponsorships := p.activeSponsorships + [contract]))
  }

  /**
   The stats update of `handleSignSponsorship`: the offer is looked up by id
   in the table, an unknown id is refused, and a known one is signed as
   above. Since table ids are distinct, the offer signed is the one entry
   with that id.
   */
  function Sign(p: PlayerStats, id: string): (r: SignResult)
    ensures r == SignRefused(UnknownOffer) <==> FindSponsorship(AVAILABLE_SPONSORSHIPS, id).None?
    ensures forall s :: s in AVAILABLE_SPONSORSHIPS && s.id == id ==>
      (s.benefitType == Weekly ==> s.durationWeeks.Some?) && r == SignOffer(p, s)
    ensures r.Signed? && Bounded(p) ==> Bounded(r.stats)
  {
    match FindSponsorship(AVAILABLE_SPONSORSHIPS, id)
    case None => SignRefused(UnknownOffer)
    case Some(s) =>
      TableOffer(s);
      SignOffer(p, s)
  }

  lemma AppendKeepsAmounts(cs: seq<ActiveSponsorship>, c: ActiveSponsorship)
    ensures NonNegativeAmounts(cs) && c.contract.amount >= 0 ==> NonNegativeAmounts(cs + [c])
  {
    assert forall i :: 0 <= i < |cs| ==> (cs + [c])[i] == cs[i];
  }

  /**
   The status rule and the signing checks agree: an offer from the table
   shows as available to a player who is not busy exactly when signing it
   succeeds.
   */
  lemma AvailableExactlyWhenSignable(p: PlayerStats, s: Sponsorship)
    requires s in AVAILABLE_SPONSORSHIPS
    ensures Status(false, p, s) == Available <==> Sign(p, s.id).Signed?
  {
  }

  /** A busy player sees every offer disabled, whatever else holds. */
  lemma BusyDisablesEverything(p: PlayerStats, s: Sponsorship)
    ensures Status(true, p, s) != Available
  {
  }

  datatype SignOutcome = NotSigned(reason: SignRefusal) | SignedAndWeekAdvanced

  /**
   `handleSignSponsorship`: a refused offer changes nothing; a signed one
   updates the stats and then the week advances.
   */
  method HandleSignSponsorship(c: Career, id: string, news: seq<NewsEffect>) returns (r: Career, outcome: SignOutcome)
    ensures Sign(c.stats, id).SignRefused? ==> r == c && outcome == NotSigned(Sign(c.stats, id).reason)
    ensures Sign(c.stats, id).Signed? ==> outcome == SignedAndWeekAdvanced && r.week == c.week + 1
    // the signed stats are what the week's news and tick then apply to
    ensures Sign(c.stats, id).Signed? ==>
      r == Career(c.week + 1, WeeklyTick(ApplyNewsEffects(Sign(c.stats, id).stats, news)))
    ensures Bounded(c.stats) ==> Bounded(r.stats)
    ensures r.stats.wins == c.stats.wins && r.stats.losses == c.stats.losses && r.stats.rank == c.stats.rank
  {
    match Sign(c.stats, id)
    case SignRefused(reason) =>
      r, outcome := c, NotSigned(reason);
    case Signed(s) =>
      r := AdvanceWeek(Career(c.week, s), news);
      outcome := SignedAndWeekAdvanced;
  }
}
