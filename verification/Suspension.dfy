// Suspended authority across a restart: a tick that is lost makes reports of
// reachability fresh again that had become stale. Exactly when that lifts a suspension,
// and a run with two members in which it does.
module Suspension {
  import opened Sequences
  import opened Scopes
  import opened Policies
  import opened Identities
  import opened Evidence
  import opened Membership
  import opened Partition
  import opened State
  import opened StateProperties
  import opened Authority
  import opened Coordination
  import opened Runs
  import opened Clocks
  import opened Founding
  import opened Expiry
  import opened Guarantees
  import Standing

  // ---- the exact condition --------------------------------------------------

  ghost predicate SuspendedFor(i: Inputs, member: Id, t: Terms) {
    && t in DerivationOf(i, member).delegatedTerms
    && DispositionOf(RegimeOf(i), member, DerivationOf(i, member), t) == SuspendedNow
  }

  predicate Impaired(partition: PartitionState) {
    partition == Split || partition == Indeterminate
  }

  lemma TermSuspendedExactly(r: Regime, member: Id, d: Derivation, terms: Terms)
    ensures DispositionOf(r, member, d, terms) == SuspendedNow <==>
            var class_ := Classify(r.catalog, terms.grant.scope);
            var dispute := DisputeOver(r.claims, r.policy, terms.grant);
            && class_ == Known(GlobalMutation) && GlobalMutationSuspended(r)
            && !DelegationForbidden(r.policy, terms.grant.scope)
            && !GrantsCover(d.withdrawn, terms.grant)
            && (terms.notAfter == 0 || r.logicalTime <= terms.notAfter)
            && (dispute == Undisputed || dispute == WonBy(member))
            && HoldsFederationAuthority(d.lifecycle)
  {
    hide DisputeOver, Classify, DelegationForbidden, GrantsCover, GlobalMutationSuspended;
  }

  lemma SuspendedExactly(i: Inputs, member: Id, t: Terms)
    ensures SuspendedFor(i, member, t) <==>
            && Entitled(i, member, t) && !Expired(i, t)
            && Classify(i.catalog, t.grant.scope) == Known(GlobalMutation) && GlobalMutationSuspended(RegimeOf(i))
  {
    RegimeFields(i);
    TermSuspendedExactly(RegimeOf(i), member, DerivationOf(i, member), t);
    hide Accepted, WorldOf, DerivationOf, RegimeOf, DispositionOf, ClaimsIn, DisputeOver, IsReconciling, PartitionOf,
         Classify, DelegationForbidden, ClockOf, GlobalMutationSuspended, GrantsCover;
  }

  lemma HinderedExactly(i: Inputs, member: Id, t: Terms)
    ensures var policy := WorldOf(i).policy;
            && (GlobalMutationSuspended(RegimeOf(i)) <==>
                || (IsReconciling(i) && SuspendsWhileReconciling(policy))
                || (Impaired(PartitionOf(i).state) && SuspendsOnPartition(policy)))
            && (Hindered(i, member, t) <==>
                || (Classify(i.catalog, t.grant.scope) == Known(GlobalMutation) && GlobalMutationSuspended(RegimeOf(i)))
                || (DerivationOf(i, member).lifecycle == Degraded && Mutating(t.grant.verb)))
  {
    RegimeFields(i);
    hide Accepted, WorldOf, DerivationOf, RegimeOf, IsReconciling, PartitionOf, Classify, SuspendsOnPartition,
         SuspendsWhileReconciling;
  }

  /** A crash and a restart put a suspended global-mutation term back in force exactly
      when the partition suspends it now and, read at the recovered tick, no longer does,
      while nothing else stands in its way: it is in order, not suspended for a
      reconciliation, not expired by then, and its member not degraded. */
  lemma RestartLiftsSuspensionIff(m: Machine, member: Id, t: Terms)
    requires MachineOk(m) && |m.log| <= MAX_RECORDS
    ensures Restarted(m).Up?
    ensures var i, later := InputsOf(m), AtRecovery(m);
            var policy := WorldOf(i).policy;
            SuspendedFor(i, member, t) && InForceFor(InputsOf(Restarted(m).machine), member, t) <==>
            && Entitled(i, member, t) && Classify(i.catalog, t.grant.scope) == Known(GlobalMutation)
            && !Expired(i, t) && !Expired(later, t)
            && SuspendsOnPartition(policy) && Impaired(PartitionOf(i).state) && !Impaired(PartitionOf(later).state)
            && !(IsReconciling(i) && SuspendsWhileReconciling(policy))
            && !(DerivationOf(later, member).lifecycle == Degraded && Mutating(t.grant.verb))
  {
    var i, later := InputsOf(m), AtRecovery(m);
    RestartedReads(m);
    InForceAfterRestart(m, member, t);
    StandingIgnoresTime(i, later);
    ReconcilingIgnoresTime(i, later);
    SuspendedExactly(i, member, t);
    HinderedExactly(i, member, t);
    HinderedExactly(later, member, t);
    assert later.catalog == i.catalog by { hide InputsOf, RecoveredTick; }
    hide *;
  }

  // ---- a federation of two --------------------------------------------------

  /** The founder sponsors a second member, which accepts; no endorsement is asked for,
      reports are good for one tick, and the founder's scope is a global mutation. */
  const PAIR_POLICY := Policy(1, [Rule(RequireEndorsements, true, 0, "", 0, []),
                                  Rule(ObservationFreshnessTicks, true, 1, "", 0, [])], 0)
  const FOUNDER := Charter(0)
  const JOINING := Declaration(Constitution(4, 8, 1, {}, [], [], 0), 1, 5, 0)
  const PROPOSED: Artifact :=
    Artifact(3, MembershipProposal, 1, 8, 7, 1,
             Body(JOINING, NO_IDENTITY, NO_DECLARATION, NO_POLICY, 0, 1, 0, [], [], OtherReason, 1, 0))
  const ACCEPTED: Artifact :=
    Artifact(4, MembershipAcceptance, 1, 8, 8, 1,
             Body(JOINING, IdentityOf(JOINING), NO_DECLARATION, NO_POLICY, 0, 1, 0, [], [], OtherReason, 1, 0))

  function PairRecords(config: Config): seq<Artifact> {
    [GenesisRecord(config, FOUNDER), ActivationRecord(config, FOUNDER), PROPOSED, ACCEPTED]
  }

  ghost predicate PairConfig(config: Config) {
    && config.federation == 1 && config.initialTick == 1 && config.policy == PAIR_POLICY
    && config.catalog == map[SCOPE := GlobalMutation]
    && forall a | a in PairRecords(config) :: config.valid(a)
  }

  ghost predicate PairInputs(i: Inputs, config: Config) {
    && PairConfig(config) && i.artifacts == PairRecords(config) && i.federation == config.federation
    && i.valid == config.valid && i.catalog == config.catalog && i.leases == []
  }

  lemma PairAccepted(i: Inputs, config: Config)
    requires PairInputs(i, config)
    ensures Accepted(i) == PairRecords(config)
  {
    assert ByEvidence(PairRecords(config));
    assert forall a | a in PairRecords(config) :: a.federation == i.federation;
    AllAccepted(i);
  }

  lemma PairKinds(config: Config)
    ensures forall a | a in PairRecords(config) ::
              a == GenesisRecord(config, FOUNDER) || a == ActivationRecord(config, FOUNDER) || a == PROPOSED || a == ACCEPTED
    ensures GenesisRecord(config, FOUNDER) in PairRecords(config) && ActivationRecord(config, FOUNDER) in PairRecords(config)
    ensures PROPOSED in PairRecords(config) && ACCEPTED in PairRecords(config)
    ensures ByEvidence(PairRecords(config))
  {
    var r := PairRecords(config);
    assert r[0] in r && r[1] in r && r[2] in r && r[3] in r;
  }

  lemma PairGenesis(config: Config)
    ensures |OfKind(PairRecords(config), FederationGenesis)| == 1
    ensures Genesis(PairRecords(config)) == Some(GenesisRecord(config, FOUNDER))
  {
    var records := PairRecords(config);
    PairKinds(config);
    OfKindKeepsOrder(records, FederationGenesis);
    hide OfKind, PairRecords;
    SingleInOrder(OfKind(records, FederationGenesis), GenesisRecord(config, FOUNDER));
  }

  lemma PairPolicy(config: Config, configured: Policy)
    ensures EffectivePolicy(PairRecords(config), configured) == config.policy
  {
    hide Genesis, PairRecords, EffectivePolicy, OfKind;
    PairKinds(config);
    PairGenesis(config);
    NoPolicyUpdate(PairRecords(config), configured);
  }

  lemma PairFounder(config: Config)
    ensures Founder(PairRecords(config)) == Some(FOUNDER)
  {
    hide Genesis, PairRecords;
    PairGenesis(config);
  }

  lemma PairOrder(config: Config)
    ensures MemberOrder(PairRecords(config), []) == [7, 8]
  {
    hide PairRecords, Subjects, Founder;
    PairKinds(config);
    PairFounder(config);
    SubjectsAre(PairRecords(config));
    assert Holders([]) == [];
    AscendingUnique(MemberOrder(PairRecords(config), []), [7, 8]);
  }

  lemma PairWorld(i: Inputs, config: Config)
    requires PairInputs(i, config)
    ensures WorldOf(i) == Standing.World(PairRecords(config), [7, 8], PAIR_POLICY, Some(FOUNDER))
  {
    PairAccepted(i, config);
    PairPolicy(config, i.policy);
    PairFounder(config);
    PairOrder(config);
    hide Accepted, PairRecords, MemberOrder, EffectivePolicy, Founder;
  }

  // ---- the second member ----------------------------------------------------

  lemma AboutJoining(config: Config)
    ensures Standing.About(PairRecords(config), 8) == ABOUT_JOINING
  {
    PairKinds(config);
    AboutKeepsOrder(PairRecords(config), 8);
    hide Standing.About, PairRecords;
    JoiningRecords();
    EvidenceOrderUnique(Standing.About(PairRecords(config), 8), ABOUT_JOINING);
  }

  lemma OneInLineage(s: seq<Artifact>, kind: Kind, a: Artifact)
    requires ByEvidence(s) && a in s && a.kind == kind && a.body.lineage == 0
    requires forall b | b in s && b.kind == kind :: b == a
    ensures InLineage(s, 0, kind) == [a]
  {
    FilterKeepsOrder(s, (b: Artifact) => b.kind == kind && b.body.lineage == 0);
    hide Filter;
    SingleInOrder(InLineage(s, 0, kind), a);
  }

  lemma OneSponsored(member: Id, a: Artifact)
    requires a.issuer != member
    ensures Sponsored(member, [a]) == [a]
  {
    assert [a][..0] == [];
  }

  lemma OneMatching(member: Id, a: Artifact, proposal: Artifact)
    requires a.issuer == member && Echoes(a, proposal)
    ensures Matching(member, [a], proposal) == [a]
  {
    hide Echoes;
    assert [a][..0] == [];
  }

  lemma OnePicked(a: Artifact, beats: (Artifact, Artifact) -> bool)
    ensures Pick([a], beats) == Some(a)
  {
    assert Pick([a][..0], beats).None?;
  }

  const ABOUT_JOINING: seq<Artifact> := [PROPOSED, ACCEPTED]

  lemma JoiningRecords()
    ensures ByEvidence(ABOUT_JOINING) && PROPOSED in ABOUT_JOINING && ACCEPTED in ABOUT_JOINING
    ensures forall a | a in ABOUT_JOINING :: a == PROPOSED || a == ACCEPTED
    ensures LineageOf(8, ABOUT_JOINING) == 0
  {
    assert ABOUT_JOINING[0] == PROPOSED && ABOUT_JOINING[1] == ACCEPTED;
    assert !Advances(8, ABOUT_JOINING, 0);
  }

  lemma JoiningProposal()
    ensures Operative(8, ABOUT_JOINING) == Some(PROPOSED) && Has(8, ABOUT_JOINING, MembershipProposal)
  {
    JoiningRecords();
    OneInLineage(ABOUT_JOINING, MembershipProposal, PROPOSED);
    OneSponsored(8, PROPOSED);
    OnePicked(PROPOSED, HigherGeneration);
    hide LineageOf, Pick, Filter, InLineage, Sponsored;
  }

  lemma JoiningConsent()
    ensures Consent(8, ABOUT_JOINING, PROPOSED) == Some(ACCEPTED)
  {
    JoiningRecords();
    OneInLineage(ABOUT_JOINING, MembershipAcceptance, ACCEPTED);
    OneMatching(8, ACCEPTED, PROPOSED);
    OnePicked(ACCEPTED, LowerEvidence);
    hide LineageOf, Pick, Filter, InLineage, Matching;
  }

  lemma JoiningLacks()
    ensures LatestAttestation(8, ABOUT_JOINING).None? && Activation(8, ABOUT_JOINING).None? && Fence(8, ABOUT_JOINING).None?
    ensures !Has(8, ABOUT_JOINING, MembershipRetirement) && !Has(8, ABOUT_JOINING, MembershipLeave)
  {
    JoiningRecords();
    NoneOfKind(ABOUT_JOINING, 0, MemberReattestation);
    NoneOfKind(ABOUT_JOINING, 0, MembershipActivation);
    NoneOfKind(ABOUT_JOINING, 0, MembershipFence);
    NoneOfKind(ABOUT_JOINING, 0, MembershipRetirement);
    NoneOfKind(ABOUT_JOINING, 0, MembershipLeave);
    NoneOwned(8);
    hide LineageOf, Pick, Filter, InLineage, OwnedBy, AcceptedFences;
  }

  lemma NoneOwned(member: Id)
    ensures OwnedBy(member, []) == [] && AcceptedFences(member, []) == []
    ensures Pick([], LaterAttestation).None? && Pick([], LaterEpoch).None? && Pick([], HigherFenceEpoch).None?
  {
  }

  lemma PairPolicyAsks()
    ensures PartiesRequired(PAIR_POLICY) == 2 && EndorsementsRequired(PAIR_POLICY) == 0
    ensures FreshnessTicks(PAIR_POLICY) == 1 && MandatoryCapabilities(PAIR_POLICY) == {}
    ensures SuspendsOnPartition(PAIR_POLICY)
    ensures forall grant :: !LeaseRequired(PAIR_POLICY, grant) && !DelegationForbidden(PAIR_POLICY, grant.scope)
  {
    var rules := PAIR_POLICY.rules;
    LastValueIsLast(rules, RequireEndorsements, 1, 0);
    LastValueIsLast(rules, ObservationFreshnessTicks, DEFAULT_FRESHNESS, 1);
    assert rules[..1][..0] == [] && rules[..2] == rules;
    assert LastValue(rules, RequireDistinctParties, 2) == 2;
  }

  /** The second member stands as soon as its sponsor does, and is Admitted. */
  lemma JoiningStands(established: set<Id>)
    requires 7 in established
    ensures Membership.Standing(8, ABOUT_JOINING, PAIR_POLICY, Some(FOUNDER), established)
  {
    JoiningProposal();
    JoiningConsent();
    JoiningLacks();
    PairPolicyAsks();
    hide Operative, Consent, Activation, Fence, Has, LatestAttestation, PartiesRequired, EndorsementsRequired, Endorsers;
    var parties := Parties(8, 7, Endorsers(8, ABOUT_JOINING, PROPOSED, established));
    assert {7, 8} <= parties;
    SubsetSize({7, 8}, parties);
  }

  lemma JoiningIdentity()
    ensures CurrentIdentity(8, ABOUT_JOINING, Some(FOUNDER)) == IdentityOf(JOINING)
  {
    JoiningProposal();
    JoiningConsent();
    JoiningLacks();
    hide Operative, Consent, LatestAttestation;
  }

  lemma JoiningIsAdmitted(ctx: Context)
    requires ctx.policy == PAIR_POLICY && ctx.founder == Some(FOUNDER) && 7 in ctx.established
    ensures Derive(8, ABOUT_JOINING, ctx).lifecycle == Admitted
    ensures Derive(8, ABOUT_JOINING, ctx).currentIdentity == IdentityOf(JOINING)
  {
    JoiningStands(ctx.established);
    JoiningLacks();
    JoiningIdentity();
    hide Operative, Consent, Activation, Fence, Has, LatestAttestation, AdmissionValid, SameConstitution, MustReconsent,
         ActivationCurrent, Suspended, CapabilityGap, CurrentIdentity, AdmittedIdentity, DeclarationOf, TermsOf, WithdrawnBy,
         ConflictsOf, LineageOf;
  }

  // ---- what is derived from the pair ----------------------------------------

  lemma AboutFounder(config: Config)
    ensures FounderEvidence(Standing.About(PairRecords(config), 7), FOUNDER)
    ensures forall a | a in Standing.About(PairRecords(config), 7) ::
              a.kind != MemberReattestation && (a.kind == MembershipActivation ==> a.body.epoch == 1)
  {
    PairKinds(config);
    hide PairRecords;
    assert ActivationRecord(config, FOUNDER) in Standing.About(PairRecords(config), 7);
  }

  lemma FirstRound(w: Standing.World, member: Id)
    requires Standing.Stands(w, member, {})
    ensures member in Standing.Rounds(w, 1)
  {
    hide Standing.Stands;
    assert Standing.Rounds(w, 0) == {};
  }

  lemma TwoRounds(w: Standing.World)
    requires w.members == [7, 8] && 7 in Standing.Rounds(w, 1) && Standing.Stands(w, 8, Standing.Rounds(w, 1))
    ensures Standing.Established(w) == {7, 8}
  {
    hide Standing.Stands;
    Standing.RoundsIncrease(w, 1, 2);
    var second := Standing.Rounds(w, 2);
    assert second == Standing.Round(w, Standing.Rounds(w, 1));
    assert 8 in second;
    forall m | m in second ensures m == 7 || m == 8 {
      StandingMembers(w, m, Standing.Rounds(w, 1));
    }
    hide Standing.Rounds;
    assert second == {7, 8};
  }

  lemma StandingMembers(w: Standing.World, member: Id, established: set<Id>)
    requires Standing.Stands(w, member, established)
    ensures member in w.members
  {
  }

  lemma PairEstablished(i: Inputs, config: Config)
    requires PairInputs(i, config)
    ensures Standing.Established(WorldOf(i)) == {7, 8} && ActiveMembers(i) == [7, 8]
  {
    hide PairInputs, WorldOf, PairRecords, Membership.Standing, Standing.About, FounderEvidence, Standing.Established, Filtered;
    PairWorld(i, config);
    AboutJoining(config);
    AboutFounder(config);
    var w := WorldOf(i);
    FounderStands(Standing.About(PairRecords(config), 7), FOUNDER, PAIR_POLICY, {});
    FirstRound(w, 7);
    JoiningStands(Standing.Rounds(w, 1));
    TwoRounds(w);
    AscendingUnique(ActiveMembers(i), [7, 8]);
  }

  lemma PairEpoch(i: Inputs, config: Config)
    requires PairInputs(i, config)
    ensures EpochOf(Accepted(i)) == 1 && !IsReconciling(i)
    ensures ClockOf(Accepted(i), i.logicalTime) == Max(i.logicalTime, 1)
  {
    hide Accepted, EpochOf, Recovery, PairRecords, ClockOf, ReconciliationRecorded;
    PairAccepted(i, config);
    PairTimes(config);
    NoAdvance(PairRecords(config));
    ClockIsLargestTime(PairRecords(config), i.logicalTime);
    assert ACCEPTED.body.logicalTime == 1;
  }

  lemma PairTimes(config: Config)
    requires config.initialTick == 1
    ensures forall a | a in PairRecords(config) :: a.kind != Kind.EpochAdvance && a.body.logicalTime == 1
    ensures ACCEPTED in PairRecords(config)
  {
    PairKinds(config);
    hide PairRecords;
  }

  /** Each member runs at incarnation one. */
  lemma PairIncarnations(i: Inputs, config: Config)
    requires PairInputs(i, config)
    ensures Incarnations(i, [7, 8]) == [1, 1]
  {
    hide PairInputs, WorldOf, PairRecords, Standing.About, FounderEvidence, Standing.Established, Derive, EpochOf, Accepted;
    PairWorld(i, config);
    PairEstablished(i, config);
    AboutFounder(config);
    AboutJoining(config);
    PairPolicyAsks();
    var ctx := Standing.Neutral(WorldOf(i), EpochOf(WorldOf(i).accepted), {7, 8}, i.compatible);
    FounderDerivation(Standing.About(PairRecords(config), 7), FOUNDER, ctx);
    JoiningIsAdmitted(ctx);
  }

  const REPORT_7 := PeerObservation(8, 1, Reachable, 1)
  const REPORT_8 := PeerObservation(7, 1, Reachable, 1)
  const OBSERVED_7 := MemberObservation(7, 1, 1, [REPORT_7])
  const OBSERVED_8 := MemberObservation(8, 1, 1, [REPORT_8])

  /** Both have reported reaching the other at tick one: connected up to tick two,
      indeterminate afterwards. */
  lemma PairPartition(i: Inputs, config: Config)
    requires PairInputs(i, config) && i.observations == [OBSERVED_7, OBSERVED_8]
    ensures PartitionOf(i).state == if i.logicalTime <= 2 then Connected else Indeterminate
  {
    hide AssessmentOf, FreshReport, PairInputs, PartitionOf, EachReports;
    var s := Survey([7, 8], [1, 1], [OBSERVED_7, OBSERVED_8], 1, Max(i.logicalTime, 1), 1);
    PairSurvey(i, config, s);
    PairReported(s);
    PairFresh(s);
    PairAssessed(s, 7, 8, REPORT_7, REPORT_8);
  }

  lemma PairReported(s: Survey)
    requires s.active == [7, 8] && s.observations == [OBSERVED_7, OBSERVED_8] && s.epoch == 1
    ensures EachReports(s, 7, 8, REPORT_7, REPORT_8)
  {
  }

  lemma PairFresh(s: Survey)
    requires s.freshness == 1 && s.now >= 1
    ensures FreshReport(s, OBSERVED_7, REPORT_7) <==> s.now <= 2
    ensures FreshReport(s, OBSERVED_8, REPORT_8) <==> s.now <= 2
  {
  }

  lemma PairSurvey(i: Inputs, config: Config, s: Survey)
    requires PairInputs(i, config) && i.observations == [OBSERVED_7, OBSERVED_8]
    requires s == Survey([7, 8], [1, 1], [OBSERVED_7, OBSERVED_8], 1, Max(i.logicalTime, 1), 1)
    ensures PartitionOf(i) == AssessmentOf(s)
  {
    hide PairInputs, WorldOf, ActiveMembers, Incarnations, EpochOf, ClockOf, Accepted, AssessmentOf, FreshnessTicks,
         PairRecords, Standing.Established, IsReconciling;
    PairWorld(i, config);
    PairEstablished(i, config);
    PairIncarnations(i, config);
    PairEpoch(i, config);
    PairPolicyAsks();
  }

  lemma PairDerivations(i: Inputs, config: Config)
    requires PairInputs(i, config) && i.observations == [OBSERVED_7, OBSERVED_8]
    ensures var d := DerivationOf(i, 7);
            && d.currentIdentity == IdentityOf(FOUNDER) && d.delegatedTerms == [Offer(0)] && d.withdrawn == {} && d.conflicts == []
            && d.lifecycle == if i.logicalTime <= 2 then Active else Degraded
    ensures DerivationOf(i, 8).lifecycle == Admitted
  {
    hide PairInputs, WorldOf, PairRecords, Standing.About, FounderEvidence, Standing.Established, Derive, EpochOf, Accepted,
         PartitionOf, IsReconciling, FinalContext, ActivationCurrent, MandatoryCapabilities, SuspendsOnPartition,
         SuspendsWhileReconciling;
    PairAccepted(i, config);
    PairWorld(i, config);
    PairEstablished(i, config);
    PairEpoch(i, config);
    PairPartition(i, config);
    AboutFounder(config);
    AboutJoining(config);
    PairPolicyAsks();
    ContextFields(i);
    ContextEstablished(i);
    FounderDerivation(Standing.About(PairRecords(config), 7), FOUNDER, FinalContext(i));
    ActiveAtFirstEpoch(Standing.About(PairRecords(config), 7), FOUNDER);
    JoiningIsAdmitted(FinalContext(i));
  }

  lemma ContextEstablished(i: Inputs)
    ensures FinalContext(i).established == Standing.Established(WorldOf(i))
  {
    hide WorldOf, EpochOf, PartitionOf, IsReconciling, Standing.Established;
  }

  lemma TwoBare(i: Inputs)
    ensures BareMembers(i, [7, 8]) == [Bare(i, 7), Bare(i, 8)] && MembersIn(i, [7, 8]) == [MemberOf(i, 7), MemberOf(i, 8)]
    ensures Bare(i, 7).member == 7 && Bare(i, 7).derivation == DerivationOf(i, 7)
    ensures Bare(i, 8).derivation == DerivationOf(i, 8)
  {
    hide MemberOf, DerivationOf, PartitionOf;
  }

  lemma OneLiveOfTwo(m: MemberState, n: MemberState, t: Terms)
    requires HoldsFederationAuthority(m.derivation.lifecycle) && m.derivation.delegatedTerms == [t]
    requires !HoldsFederationAuthority(n.derivation.lifecycle)
    ensures LiveClaims([m, n]) == [Claim(m.member, t)]
  {
    OneMember(m, t);
    assert [m, n][..1] == [m];
  }

  lemma PairClaims(i: Inputs, config: Config)
    requires PairInputs(i, config) && i.observations == [OBSERVED_7, OBSERVED_8]
    ensures ClaimsIn(i) == [Claim(7, Offer(0))]
  {
    hide PairInputs, WorldOf, DerivationOf, Bare, BareMembers, MembersIn, MemberOf, ClaimsIn, LiveClaims, PairRecords;
    PairWorld(i, config);
    PairDerivations(i, config);
    TwoBare(i);
    OneLiveOfTwo(Bare(i, 7), Bare(i, 8), Offer(0));
    ClaimsAre(i);
  }

  lemma ClaimsAre(i: Inputs)
    ensures ClaimsIn(i) == LiveClaims(BareMembers(i, WorldOf(i).members))
  {
    hide WorldOf, BareMembers, LiveClaims;
  }

  lemma GlobalScope(catalog: Catalog)
    requires catalog == map[SCOPE := GlobalMutation]
    ensures Classify(catalog, SCOPE) == Known(GlobalMutation)
  {
  }

  /** The founder's global mutation is in force up to tick two, and suspended afterwards. */
  lemma PairTerm(i: Inputs, config: Config)
    requires PairInputs(i, config) && i.observations == [OBSERVED_7, OBSERVED_8]
    ensures GlobalMutationSuspended(RegimeOf(i)) <==> i.logicalTime > 2
    ensures InForceFor(i, 7, Offer(0)) <==> i.logicalTime <= 2
    ensures SuspendedFor(i, 7, Offer(0)) <==> i.logicalTime > 2
  {
    assert i.catalog == map[SCOPE := GlobalMutation];
    assert Offer(0).grant == Grant(SCOPE, Mutate) && Offer(0).notAfter == 0;
    GlobalScope(i.catalog);
    PairWorld(i, config);
    PairDerivations(i, config);
    PairClaims(i, config);
    PairPartition(i, config);
    PairEpoch(i, config);
    PairPolicyAsks();
    NothingDisputed(7, Offer(0), PAIR_POLICY, Offer(0).grant);
    NothingWithdrawn(Offer(0).grant);
    HinderedExactly(i, 7, Offer(0));
    SuspendedExactly(i, 7, Offer(0));
    InForceExactly(i, 7, Offer(0));
    PairEntitled(i);
    hide *;
  }

  lemma PairEntitled(i: Inputs)
    requires WorldOf(i).policy == PAIR_POLICY && ClaimsIn(i) == [Claim(7, Offer(0))]
    requires DerivationOf(i, 7).delegatedTerms == [Offer(0)] && DerivationOf(i, 7).withdrawn == {}
    requires HoldsFederationAuthority(DerivationOf(i, 7).lifecycle)
    requires Classify(i.catalog, SCOPE) == Known(GlobalMutation)
    ensures Entitled(i, 7, Offer(0)) && !Expired(i, Offer(0)) && Mutating(Offer(0).grant.verb)
    ensures Impaired(Indeterminate) && !Impaired(Connected)
  {
    hide WorldOf, ClaimsIn, DerivationOf, Classify, DisputeOver, DelegationForbidden, GrantsCover, ClockOf, Accepted,
         LeaseRequired, Entitled, DisputeConflicts, FreshnessTicks, PartiesRequired, EndorsementsRequired,
         MandatoryCapabilities, SuspendsOnPartition;
    PairPolicyAsks();
    assert !LeaseRequired(PAIR_POLICY, Offer(0).grant) && !DelegationForbidden(PAIR_POLICY, Offer(0).grant.scope);
    NothingDisputed(7, Offer(0), PAIR_POLICY, Offer(0).grant);
    NothingWithdrawn(Offer(0).grant);
    EntitledIs(i, 7, Offer(0));
    assert Offer(0) in DerivationOf(i, 7).delegatedTerms;
  }

  lemma EntitledIs(i: Inputs, member: Id, t: Terms)
    ensures var d, policy := DerivationOf(i, member), WorldOf(i).policy;
            var class_, dispute := Classify(i.catalog, t.grant.scope), DisputeOver(ClaimsIn(i), policy, t.grant);
            Entitled(i, member, t) <==>
            && t in d.delegatedTerms && class_.Known? && class_ != Known(Local)
            && !DelegationForbidden(policy, t.grant.scope) && !GrantsCover(d.withdrawn, t.grant)
            && (dispute == Undisputed || dispute == WonBy(member))
            && HoldsFederationAuthority(d.lifecycle)
  {
    hide WorldOf, ClaimsIn, DerivationOf, Classify, DisputeOver, DelegationForbidden, GrantsCover;
  }

  lemma PairConflicts(i: Inputs, config: Config)
    requires PairInputs(i, config) && i.observations == [OBSERVED_7, OBSERVED_8]
    ensures StateConflicts(i) == {}
  {
    PairAccepted(i, config);
    PairGenesis(config);
    PairClaims(i, config);
    hide PairInputs, Accepted, WorldOf, ClaimsIn, OfKind, DisputeConflicts, PairRecords;
    NothingDisputed(7, Offer(0), WorldOf(i).policy, Offer(0).grant);
  }

  /** The founder's record in the derived state. */
  lemma PairState(i: Inputs, config: Config)
    requires PairInputs(i, config) && i.observations == [OBSERVED_7, OBSERVED_8] && i.logicalTime <= 2
    ensures StateOf(i).Some?
    ensures var m := MemberOf(i, 7);
            && FirstMember(StateOf(i).value.members, 7) == Some(m) && m.conflicts == {}
            && m.derivation == DerivationOf(i, 7) && m.authority == {Offer(0).grant}
  {
    PairWorld(i, config);
    PairDerivations(i, config);
    PairConflicts(i, config);
    PairTerm(i, config);
    StateMembers(i);
    TwoBare(i);
    SettledFields(Bare(i, 7), RegimeOf(i), StateConflicts(i), i.leases, Offer(0));
    assert MemberOf(i, 7) == Settled(Bare(i, 7), RegimeOf(i), StateConflicts(i), i.leases);
    FirstOfTwo(MemberOf(i, 7), MemberOf(i, 8));
    assert DispositionOf(RegimeOf(i), 7, DerivationOf(i, 7), Offer(0)) == GrantedNow by {
      hide RegimeOf, DispositionOf, DerivationOf, PairInputs;
    }
    hide *;
  }

  lemma FirstOfTwo(m: MemberState, n: MemberState)
    ensures FirstMember([m, n], m.member) == Some(m)
  {
  }

  // ---- the run --------------------------------------------------------------

  /** Memory holds the two members and their two reports. */
  ghost predicate PairMachine(m: Machine) {
    && PairConfig(m.config) && m.memory.artifacts == PairRecords(m.config) && m.memory.leases == map[]
    && m.memory.replay == [] && m.memory.observations == map[7 := OBSERVED_7, 8 := OBSERVED_8]
  }

  lemma PairReads(m: Machine)
    requires PairMachine(m)
    ensures PairInputs(InputsOf(m), m.config) && InputsOf(m).observations == [OBSERVED_7, OBSERVED_8]
    ensures InputsOf(m).logicalTime == m.memory.tick
  {
    NoLeasesListed(m.config.federation);
    InputFields(m);
    InputLists(m);
    TwoListed(map[7 := OBSERVED_7, 8 := OBSERVED_8]);
    hide PairConfig, PairRecords, LeasesOf, ObservationsOf;
  }

  lemma TwoListed(observations: map<Id, MemberObservation>)
    requires observations == map[7 := OBSERVED_7, 8 := OBSERVED_8]
    ensures ObservationsOf(observations) == [OBSERVED_7, OBSERVED_8]
  {
    hide Ascending;
    AscendingUnique(Ascending(observations.Keys), [7, 8]);
  }

  lemma PairFresh7(m: Machine)
    requires PairMachine(m)
    ensures FreshRequest(m, FOUNDER, Offer(0), Ask(1, 0, 1))
  {
    PairReads(m);
    PairEpoch(InputsOf(m), m.config);
    assert m.config.federation == 1 && !HasReplay([], 1);
    hide InputsOf, Accepted, EpochOf, PairMachine, PairInputs;
  }

  /** Before tick three the founder is granted its global mutation, afterwards not. */
  lemma PairAsk(m: Machine)
    requires PairMachine(m)
    ensures SuspendedFor(InputsOf(m), 7, Offer(0)) <==> m.memory.tick > 2
    ensures EvaluateResult(m, Ask(1, 0, 1), 0, true).answer == Answered(Granted) <==> m.memory.tick <= 2
  {
    var i, request := InputsOf(m), Ask(1, 0, 1);
    PairReads(m);
    PairTerm(i, m.config);
    assert m.config.catalog == map[SCOPE := GlobalMutation];
    GlobalScope(m.config.catalog);
    assert request.requested == Offer(0).grant && request.requested.scope == SCOPE;
    if m.memory.tick > 2 {
      SuspensionBindsTheCoordinator(m, request, 0, true);
    } else {
      PairGranted(m);
    }
    hide *;
  }

  lemma PairGranted(m: Machine)
    requires PairMachine(m) && m.memory.tick <= 2
    ensures EvaluateResult(m, Ask(1, 0, 1), 0, true).answer == Answered(Granted)
  {
    var i, request := InputsOf(m), Ask(1, 0, 1);
    PairReads(m);
    PairState(i, m.config);
    PairDerivations(i, m.config);
    PairPartition(i, m.config);
    PairEpoch(i, m.config);
    PairFresh7(m);
    FreshIsAdmissible(m, FOUNDER, Offer(0), request);
    AnswersDecision(m, FOUNDER, Offer(0), request, 0);
    AskedFields(m, request);
    var q := Asked(m, request);
    assert m.config.catalog == map[SCOPE := GlobalMutation] && m.config.policy == PAIR_POLICY;
    GlobalScope(m.config.catalog);
    PairPolicyAsks();
    StateSuspends(i);
    assert request.requested == Offer(0).grant && request.actor == IdentityOf(FOUNDER) && request.requested.scope == SCOPE;
    assert request.actor.member == 7;
    ActorOf(q);
    UnleasedCalm(q);
    UndisturbedActor(q, MemberOf(i, 7));
    OneGrantCovers(Offer(0).grant);
    hide *;
  }

  lemma ActorOf(q: Question)
    ensures Actor(q) == FirstMember(q.state.members, q.request.actor.member)
  {
  }

  lemma UnleasedCalm(q: Question)
    requires !LeaseRequired(q.policy, q.request.requested)
    requires !q.state.reconciling && q.state.partition.state == Connected
    ensures Passes(LeasePresented, q) && Passes(NotSuspended, q)
  {
    hide Actor, Classify, LeaseRequired, SuspendsOnPartition, SuspendsWhileReconciling;
  }

  lemma StateSuspends(i: Inputs)
    requires StateOf(i).Some?
    ensures StateOf(i).value.reconciling == IsReconciling(i) && StateOf(i).value.partition == PartitionOf(i)
  {
    hide WorldOf, EpochOf, ClockOf, IsReconciling, MembersIn, ViewsOf, StateConflicts, Ledger, PartitionOf;
  }

  /** The founding records of the two, their two reports, a crash and a start. */
  ghost function SuspensionSteps(config: Config): seq<Step> {
    FoundingSteps(config, PairRecords(config)) +
    [Call(ReportObservation(OBSERVED_7), true)] + [Call(ReportObservation(OBSERVED_8), true)] +
    [Crash] + [Start(config, true)]
  }

  ghost function Reported(m: Machine, o: MemberObservation): Machine {
    ObserveResult(m, o, true).machine
  }

  lemma ReportStep(m: Machine, o: MemberObservation)
    requires o.observer != NIL && |o.peers| <= MAX_PEERS
    ensures Next(Up(m), Call(ReportObservation(o), true)).world == Up(Reported(m, o))
    ensures var r := Reported(m, o);
            && r.config == m.config && r.memory == m.memory.(observations := m.memory.observations[o.observer := o],
                                                             tick := m.memory.tick + 1)
            && Read(r.log).tick == Read(m.log).tick && |r.log| == |m.log| + 1
  {
    AppendedTick(m.log, ObservationEvent(o));
    hide Read;
  }

  lemma PairFounding(config: Config)
    requires PairConfig(config)
    ensures Final(FoundingSteps(config, PairRecords(config))) == Up(Founded(config, PairRecords(config)))
    ensures IsRun(FoundingSteps(config, PairRecords(config)), 1)
  {
    PairKinds(config);
    assert |PairRecords(config)| == 4;
    hide PairRecords, WorldAt, Founded, FoundingSteps;
    FoundingRun(config, PairRecords(config));
  }

  /** The machine before the crash. */
  ghost function BothReported(config: Config): Machine {
    Reported(Reported(Founded(config, PairRecords(config)), OBSERVED_7), OBSERVED_8)
  }

  lemma BothReportedFields(config: Config)
    requires PairConfig(config)
    ensures var m := BothReported(config);
            PairMachine(m) && m.config == config && m.memory.tick == 3 && Read(m.log).tick == 0 && |m.log| <= 7
  {
    var m := Founded(config, PairRecords(config));
    FoundingRecordsNoTick(PairRecords(config));
    assert |FoundingLog(PairRecords(config))| == 5;
    ReportStep(m, OBSERVED_7);
    ReportStep(Reported(m, OBSERVED_7), OBSERVED_8);
    hide PairConfig, PairRecords, Reported, Read, FoundingLog;
    assert m.memory.observations == map[];
    assert map[][7 := OBSERVED_7][8 := OBSERVED_8] == map[7 := OBSERVED_7, 8 := OBSERVED_8];
  }

  lemma SuspensionWorlds(config: Config)
    requires PairConfig(config)
    ensures var steps := SuspensionSteps(config);
            && IsRun(steps, 1) && |steps| > 3 && WorldAt(steps, |steps| - 2) == Up(BothReported(config))
            && WorldAt(steps, |steps|) == Restarted(BothReported(config)) && MachineOk(BothReported(config))
  {
    assert config.federation == 1;
    PairFounding(config);
    BothReportedFields(config);
    hide PairConfig, PairRecords, WorldAt, Next, Founded, FoundingSteps, MachineOk, Reported, PairMachine, Read;
    var founding, m := FoundingSteps(config, PairRecords(config)), Founded(config, PairRecords(config));
    var one, two := Call(ReportObservation(OBSERVED_7), true), Call(ReportObservation(OBSERVED_8), true);
    ReportStep(m, OBSERVED_7);
    ReportStep(Reported(m, OBSERVED_7), OBSERVED_8);
    var a, b := founding + [one], founding + [one] + [two];
    var d := b + [Crash];
    FinalStep(founding, one);
    FinalStep(a, two);
    FinalStep(b, Crash);
    FinalStep(d, Start(config, true));
    SameWorlds(SuspensionSteps(config), b, |b|);
    RunsKeepAgreement(b, 1, |b|);
  }

  /** Suspended authority comes back by a restart: asked before the crash, the founder is
      not granted its global mutation, because nobody's reports are fresh; asked after
      it, with the same evidence and the same reports, it is. */
  lemma SuspendedTermIsGrantedAfterRestart(config: Config)
    requires PairConfig(config)
    ensures var steps := SuspensionSteps(config);
            var before, after := WorldAt(steps, |steps| - 2), WorldAt(steps, |steps|);
            && IsRun(steps, 1) && before.Up? && after.Up?
            && SuspendedFor(InputsOf(before.machine), 7, Offer(0))
            && EvaluateResult(before.machine, Ask(1, 0, 1), 0, true).answer != Answered(Granted)
            && EvaluateResult(after.machine, Ask(1, 0, 1), 0, true).answer == Answered(Granted)
  {
    var m := BothReported(config);
    SuspensionWorlds(config);
    BothReportedFields(config);
    PairAsk(m);
    PairRestarted(m);
    PairAsk(Restarted(m).machine);
    hide *;
  }

  lemma PairRestarted(m: Machine)
    requires PairMachine(m) && MachineOk(m) && |m.log| <= 7 && Read(m.log).tick == 0
    ensures Restarted(m).Up? && PairMachine(Restarted(m).machine) && Restarted(m).machine.memory.tick == 1
  {
    RestartRestores(m, m.config);
    ClockAfterRestart(m);
    NothingLeft(m);
    assert m.config.initialTick == 1 && RecoveredTick(m) == Max(1, 0) by { hide Read, MachineOk, PairRecords; }
    hide MachineOk, Recover, Read, Restarted, PairConfig, PairRecords, RecoveredTick;
  }

  /** Such a configuration exists. */
  function ConfigForTwo(): Config {
    Config(1, PAIR_POLICY, map[SCOPE := GlobalMutation], 1, (a: Artifact) => true, (r: set<nat>, o: set<nat>) => true)
  }

  lemma ConfigForTwoServes()
    ensures PairConfig(ConfigForTwo())
  {
  }
}
