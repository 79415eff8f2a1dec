/**
 * The scheduler side of the Cassandra framework: how one batch of resource
 * offers is shared out.  The plan scheduler claims first, the repair
 * scheduler sees only what the plan left, the backup manager sees only what
 * both left, and every offer nobody accepted is declined.  None of the three
 * stages runs before registration has built the plan manager.
 *
 * An offer is its identifier.  The three stages are collaborators whose
 * choices are not part of this model: each is a function from the offers it
 * is shown to the identifiers it accepts (launching tasks on them is their
 * own business).
 */
module CassandraScheduler {
  import opened Sequences

  /** A Mesos offer identifier (a protocol message wrapping a string). */
  datatype OfferId = OfferId(value: string)

  /** One claiming stage: the offers it is shown to the ids it accepts. */
  type Stage = seq<OfferId> -> seq<OfferId>

  /** `offerAccepted`: whether any accepted id equals the offer's id. */
  function OfferAccepted(offer: OfferId, acceptedOfferIds: seq<OfferId>): (r: bool)
    ensures r <==> offer in acceptedOfferIds
    decreases |acceptedOfferIds|
  {
    if acceptedOfferIds == [] then false
    else acceptedOfferIds[0] == offer || OfferAccepted(offer, acceptedOfferIds[1..])
  }

  /** `filterAcceptedOffers`: the offers whose id is not among the accepted ids. */
  function FilterAcceptedOffers(offers: seq<OfferId>, acceptedOfferIds: seq<OfferId>): seq<OfferId>
  {
    Filter(offers, o => !OfferAccepted(o, acceptedOfferIds))
  }

  /**
   * Filtering keeps exactly the offers whose id is not accepted, in input
   * order, each occurrence as often as it occurs.
   */
  lemma FilterAcceptedOffersSpec(offers: seq<OfferId>, acceptedOfferIds: seq<OfferId>)
    ensures var r := FilterAcceptedOffers(offers, acceptedOfferIds);
            && (forall o :: o in r <==> o in offers && o !in acceptedOfferIds)
            && (forall o :: multiset(r)[o] == if o in acceptedOfferIds then 0 else multiset(offers)[o])
            && IsSubsequence(r, offers)
  {
    FilterSpec(offers, o => !OfferAccepted(o, acceptedOfferIds));
  }

  /** The offers `declineOffers` declines, in the order it declines them. */
  function Declined(acceptedOffers: seq<OfferId>, offers: seq<OfferId>): seq<OfferId>
  {
    Filter(offers, o => o !in acceptedOffers)
  }

  /**
   * An input offer is declined iff its id was not accepted; it is declined
   * once per occurrence, in input order; an accepted id that is not among
   * the input offers is never declined.
   */
  lemma DeclinedIffNotAccepted(acceptedOffers: seq<OfferId>, offers: seq<OfferId>)
    ensures var r := Declined(acceptedOffers, offers);
            && (forall o :: o in r <==> o in offers && o !in acceptedOffers)
            && (forall o :: multiset(r)[o] == if o in acceptedOffers then 0 else multiset(offers)[o])
            && IsSubsequence(r, offers)
  {
    FilterSpec(offers, o => o !in acceptedOffers);
  }

  /** Declining the next offer extends the declines of the offers before it. */
  lemma DeclinedPrefix(acceptedOffers: seq<OfferId>, offers: seq<OfferId>, i: nat)
    requires i < |offers|
    ensures Declined(acceptedOffers, offers[..i + 1]) ==
            Declined(acceptedOffers, offers[..i]) + (if offers[i] !in acceptedOffers then [offers[i]] else [])
  {
    assert offers[..i + 1][..i] == offers[..i];
  }

  /** What each stage accepted in one pass. */
  datatype Claims = Claims(plan: seq<OfferId>, repair: seq<OfferId>, backup: seq<OfferId>)
  {
    /** The accepted list after the last stage: plan, then repair, then backup. */
    function Accepted(): seq<OfferId>
    {
      plan + repair + backup
    }
  }

  /** The offers the repair stage is shown. */
  function RepairInput(offers: seq<OfferId>, c: Claims): seq<OfferId>
  {
    FilterAcceptedOffers(offers, c.plan)
  }

  /** The offers the backup stage is shown. */
  function BackupInput(offers: seq<OfferId>, c: Claims): seq<OfferId>
  {
    FilterAcceptedOffers(offers, c.plan + c.repair)
  }

  /**
   * The claiming part of `resourceOffers`: with no plan manager no stage
   * runs; otherwise each stage is shown the input offers not yet accepted.
   */
  function Claim(hasPlanManager: bool, offers: seq<OfferId>, plan: Stage, repair: Stage, backup: Stage): Claims
  {
    if !hasPlanManager then Claims([], [], [])
    else
      var planned := plan(offers);
      var repaired := repair(FilterAcceptedOffers(offers, planned));
      var backedUp := backup(FilterAcceptedOffers(offers, planned + repaired));
      Claims(planned, repaired, backedUp)
  }

  /** Every id in `claimed` is the id of an offer in `shown`. */
  ghost predicate DrawnFrom(claimed: seq<OfferId>, shown: seq<OfferId>)
  {
    forall o :: o in claimed ==> o in shown
  }

  /**
   * Each stage accepted only offers it was shown.  The scheduler does not
   * check this; the disjointness results below depend on it.
   */
  ghost predicate StagesKeepToTheirInput(hasPlanManager: bool, offers: seq<OfferId>, plan: Stage, repair: Stage, backup: Stage)
  {
    var c := Claim(hasPlanManager, offers, plan, repair, backup);
    && DrawnFrom(c.plan, offers)
    && DrawnFrom(c.repair, RepairInput(offers, c))
    && DrawnFrom(c.backup, BackupInput(offers, c))
  }

  /**
   * The stages run in the fixed order plan, repair, backup: repair is shown
   * exactly the input offers the plan stage left, in input order; backup is
   * shown exactly those neither earlier stage accepted; and the accepted list
   * holds the plan stage's claims first, then the repair stage's.
   */
  lemma StagesSeeWhatEarlierStagesLeft(offers: seq<OfferId>, plan: Stage, repair: Stage, backup: Stage)
    ensures var c := Claim(true, offers, plan, repair, backup);
            && c.plan == plan(offers)
            && c.repair == repair(RepairInput(offers, c))
            && c.backup == backup(BackupInput(offers, c))
            && (forall o :: o in RepairInput(offers, c) <==> o in offers && o !in c.plan)
            && IsSubsequence(RepairInput(offers, c), offers)
            && (forall o :: o in BackupInput(offers, c) <==> o in offers && o !in c.plan && o !in c.repair)
            && IsSubsequence(BackupInput(offers, c), offers)
            && c.Accepted()[..|c.plan|] == c.plan
            && c.Accepted()[..|c.plan| + |c.repair|] == c.plan + c.repair
  {
    var c := Claim(true, offers, plan, repair, backup);
    FilterAcceptedOffersSpec(offers, c.plan);
    FilterAcceptedOffersSpec(offers, c.plan + c.repair);
    assert c.Accepted() == (c.plan + c.repair) + c.backup;
    assert (c.plan + c.repair)[..|c.plan|] == c.plan;
  }

  /** Without a plan manager nothing is accepted and every offer is declined. */
  lemma NoPlanManagerDeclinesAll(offers: seq<OfferId>, plan: Stage, repair: Stage, backup: Stage)
    ensures Claim(false, offers, plan, repair, backup) == Claims([], [], [])
    ensures Declined(Claim(false, offers, plan, repair, backup).Accepted(), offers) == offers
  {
    FilterKeepsAll(offers, (o: OfferId) => o !in []);
  }

  /**
   * When each stage keeps to its input, the three accepted lists are
   * pairwise disjoint and together draw only on the input offers.
   */
  lemma ClaimsAreDisjoint(hasPlanManager: bool, offers: seq<OfferId>, plan: Stage, repair: Stage, backup: Stage)
    requires StagesKeepToTheirInput(hasPlanManager, offers, plan, repair, backup)
    ensures var c := Claim(hasPlanManager, offers, plan, repair, backup);
            && (forall o :: o in c.plan ==> o !in c.repair && o !in c.backup)
            && (forall o :: o in c.repair ==> o !in c.backup)
            && DrawnFrom(c.Accepted(), offers)
  {
    var c := Claim(hasPlanManager, offers, plan, repair, backup);
    FilterAcceptedOffersSpec(offers, c.plan);
    FilterAcceptedOffersSpec(offers, c.plan + c.repair);
  }

  /** How many of the four fates (three stages, decline) an offer met. */
  ghost function Fates(o: OfferId, c: Claims, declined: seq<OfferId>): nat
  {
    (if o in c.plan then 1 else 0) + (if o in c.repair then 1 else 0) +
    (if o in c.backup then 1 else 0) + (if o in declined then 1 else 0)
  }

  /**
   * When each stage keeps to its input, every input offer is settled exactly
   * once: accepted by one stage or declined, never both.
   */
  lemma EveryOfferSettledOnce(hasPlanManager: bool, offers: seq<OfferId>, plan: Stage, repair: Stage, backup: Stage)
    requires StagesKeepToTheirInput(hasPlanManager, offers, plan, repair, backup)
    ensures var c := Claim(hasPlanManager, offers, plan, repair, backup);
            forall o :: o in offers ==> Fates(o, c, Declined(c.Accepted(), offers)) == 1
  {
    ClaimsAreDisjoint(hasPlanManager, offers, plan, repair, backup);
    var c := Claim(hasPlanManager, offers, plan, repair, backup);
    DeclinedIffNotAccepted(c.Accepted(), offers);
  }

  /** Filtering twice by the same accepted list is filtering once. */
  lemma FilterAcceptedOffersIdempotent(offers: seq<OfferId>, acceptedOfferIds: seq<OfferId>)
    ensures FilterAcceptedOffers(FilterAcceptedOffers(offers, acceptedOfferIds), acceptedOfferIds)
         == FilterAcceptedOffers(offers, acceptedOfferIds)
  {
    FilterIdempotent(offers, o => !OfferAccepted(o, acceptedOfferIds));
  }

  /**
   * The declines and the stage filter agree: what `declineOffers` declines is
   * exactly what `filterAcceptedOffers` would still show to a further stage.
   */
  lemma DeclinedIsWhatNoStageTook(acceptedOffers: seq<OfferId>, offers: seq<OfferId>)
    ensures Declined(acceptedOffers, offers) == FilterAcceptedOffers(offers, acceptedOffers)
  {
    FilterCongruent(offers, o => o !in acceptedOffers, o => !OfferAccepted(o, acceptedOffers));
  }

  /**
   * The scheduler object.  `hasPlanManager` says whether registration built
   * the plan manager and the plan and repair schedulers (they are built
   * together); `declined` is the sequence of offers declined through the
   * driver, in order.
   */
  class Scheduler {
    var hasPlanManager: bool
    var declined: seq<OfferId>

    constructor ()
      ensures !hasPlanManager && declined == []
    {
      hasPlanManager := false;
      declined := [];
    }

    /**
     * `registered`: persisting the framework id comes first; if it fails the
     * callback raises and nothing is built.  `persisted` is the persistence
     * outcome; `ok` is false when the callback raised.
     */
    method Registered(persisted: bool) returns (ok: bool)
      modifies this`hasPlanManager
      ensures ok == persisted
      ensures hasPlanManager == (old(hasPlanManager) || persisted)
    {
      if !persisted {
        ok := false;
        return;
      }
      hasPlanManager := true;
      ok := true;
    }

    /** `declineOffers`: decline each offer whose id was not accepted, in order. */
    method DeclineOffers(acceptedOffers: seq<OfferId>, offers: seq<OfferId>)
      modifies this`declined
      ensures declined == old(declined) + Declined(acceptedOffers, offers)
    {
      var i := 0;
      while i < |offers|
        invariant 0 <= i <= |offers|
        invariant declined == old(declined) + Declined(acceptedOffers, offers[..i])
      {
        DeclinedPrefix(acceptedOffers, offers, i);
        if offers[i] !in acceptedOffers {
          declined := declined + [offers[i]];
        }
        i := i + 1;
      }
      assert offers[..|offers|] == offers;
    }

    /**
     * `resourceOffers`: the stages claim in order on what is left, then the
     * rest is declined.
     */
    method ResourceOffers(offers: seq<OfferId>, plan: Stage, repair: Stage, backup: Stage)
      modifies this`declined
      ensures declined == old(declined) + Declined(Claim(hasPlanManager, offers, plan, repair, backup).Accepted(), offers)
    {
      var acceptedOffers: seq<OfferId> := [];
      if hasPlanManager {
        acceptedOffers := acceptedOffers + plan(offers);
        assert acceptedOffers == plan(offers);
        var unacceptedOffers := FilterAcceptedOffers(offers, acceptedOffers);
        acceptedOffers := acceptedOffers + repair(unacceptedOffers);
        unacceptedOffers := FilterAcceptedOffers(offers, acceptedOffers);
        acceptedOffers := acceptedOffers + backup(unacceptedOffers);
      }
      assert acceptedOffers == Claim(hasPlanManager, offers, plan, repair, backup).Accepted();
      DeclineOffers(acceptedOffers, offers);
    }
  }

  /**
   * A scheduler whose registration failed to persist the framework id
   * declines a whole later batch, whatever the stages would have done.
   */
  method FailedRegistrationDeclinesBatch(offers: seq<OfferId>, plan: Stage, repair: Stage, backup: Stage)
    returns (declined: seq<OfferId>)
    ensures declined == offers
  {
    var s := new Scheduler();
    var ok := s.Registered(false);
    s.ResourceOffers(offers, plan, repair, backup);
    NoPlanManagerDeclinesAll(offers, plan, repair, backup);
    declined := s.declined;
  }
}
