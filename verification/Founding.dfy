// The smallest federation: one genesis record, an activated founder, and otherwise only
// records about the federation as a whole. What is derived from such evidence, and the
// run of the coordinator that brings it about.
module Founding {
  import opened Sequences
  import opened Scopes
  import opened Policies
  import opened Identities
  import opened Evidence
  import opened Membership
  import opened Partition
  import opened Leases
  import opened State
  import opened StateProperties
  import opened Authority
  import opened EndToEnd
  import opened Coordination
  import opened Runs
  import Restarts
  import Names
  import Standing

  // ---- the evidence ---------------------------------------------------------

  /** What may be on record about the founder itself. */
  ghost predicate FounderRecord(a: Artifact, d: Declaration) {
    && a.kind in {FederationGenesis, MembershipActivation, MemberReattestation}
    && a.body.lineage == 0
    && (a.kind == MemberReattestation ==> a.body.declaration == d && a.body.declaredIdentity == IdentityOf(d))
  }

  ghost predicate FounderEvidence(about: seq<Artifact>, d: Declaration) {
    && (forall a | a in about :: FounderRecord(a, d))
    && exists a | a in about :: a.kind == MembershipActivation
  }

  ghost predicate OneGenesis(accepted: seq<Artifact>, d: Declaration) {
    exists g | g in accepted :: g.kind == FederationGenesis && g.body.founder == d &&
      forall h | h in accepted && h.kind == FederationGenesis :: h == g
  }

  ghost predicate Concerns(a: Artifact, d: Declaration) {
    a.subject == NIL || (a.subject == d.constitution.member && FounderRecord(a, d))
  }

  /** The founder declares one term, nobody else is mentioned, and the effective policy
      asks for no capability. */
  ghost predicate Lone(i: Inputs, d: Declaration, t: Terms) {
    && d.constitution.member != NIL && d.constitution.delegated == [t]
    && OneGenesis(Accepted(i), d)
    && (forall a | a in Accepted(i) :: Concerns(a, d))
    && (exists a | a in Accepted(i) :: a.kind == MembershipActivation && a.subject == d.constitution.member)
    && (forall l | l in i.leases :: l.holder.member in {NIL, d.constitution.member})
    && MandatoryCapabilities(WorldOf(i).policy) == {}
  }

  lemma NoneOfKind(about: seq<Artifact>, lineage: nat, kind: Kind)
    requires forall a | a in about :: a.kind != kind
    ensures InLineage(about, lineage, kind) == []
  {
    EmptyTogether(InLineage(about, lineage, kind), []);
  }

  lemma FounderLineage(about: seq<Artifact>, d: Declaration, member: Id)
    requires FounderEvidence(about, d)
    ensures LineageOf(member, about) == 0
  {
    assert !Advances(member, about, 0);
  }

  lemma NothingPicked<T>(s: seq<T>, beats: (T, T) -> bool)
    requires s == []
    ensures Pick(s, beats).None?
  {
  }

  lemma NothingOwned(member: Id)
    ensures OwnedBy(member, []) == [] && Sponsored(member, []) == [] && AcceptedFences(member, []) == []
  {
  }

  /** No proposal, declaration, withdrawal or fence is on record. */
  lemma FounderSelections(about: seq<Artifact>, d: Declaration)
    requires FounderEvidence(about, d)
    ensures var f := d.constitution.member;
            && Operative(f, about).None? && Fence(f, about).None? && WithdrawnBy(f, about) == {}
            && ConflictsOf(f, about) == []
            && !Has(f, about, MembershipRetirement) && !Has(f, about, MembershipLeave)
            && InLineage(about, LineageOf(f, about), DelegationDeclaration) == []
  {
    var f := d.constitution.member;
    FounderLineage(about, d, f);
    hide LineageOf, InLineage, OwnedBy, Sponsored, AcceptedFences, Pick;
    NoneOfKind(about, 0, MembershipProposal);
    NoneOfKind(about, 0, MembershipFence);
    NoneOfKind(about, 0, DelegationWithdrawal);
    NoneOfKind(about, 0, DelegationDeclaration);
    NoneOfKind(about, 0, MembershipRetirement);
    NoneOfKind(about, 0, MembershipLeave);
    NothingOwned(f);
    NothingPicked([], HigherGeneration);
    NothingPicked([], HigherFenceEpoch);
  }

  lemma FounderIdentity(about: seq<Artifact>, d: Declaration)
    requires FounderEvidence(about, d)
    ensures var f := d.constitution.member;
            && AdmittedIdentity(f, about, Some(d)) == IdentityOf(d) == CurrentIdentity(f, about, Some(d))
            && DeclarationOf(f, about, Some(d)) == d
            && TermsOf(f, about, Some(d)) == d.constitution.delegated
            && Activation(f, about).Some?
  {
    var f := d.constitution.member;
    FounderSelections(about, d);
    FounderLineage(about, d, f);
    hide Operative, Fence, WithdrawnBy, ConflictsOf, Has, LineageOf;
    NothingOwned(f);
    NothingPicked([], LaterIssue);
    var attestation := LatestAttestation(f, about);
    if attestation.Some? {
      assert attestation.value in about && FounderRecord(attestation.value, d);
    }
    var a :| a in about && a.kind == MembershipActivation;
    assert a in InLineage(about, 0, MembershipActivation);
  }

  /** The founder stands, whoever else does. */
  lemma FounderStands(about: seq<Artifact>, d: Declaration, policy: Policy, established: set<Id>)
    requires FounderEvidence(about, d)
    ensures Membership.Standing(d.constitution.member, about, policy, Some(d), established)
  {
    FounderSelections(about, d);
    FounderIdentity(about, d);
    hide Operative, Fence, Has, Activation, AdmittedIdentity, CurrentIdentity;
  }

  /** It is Active when its declaration is current and nothing is suspended, and
      Degraded otherwise. */
  lemma FounderDerivation(about: seq<Artifact>, d: Declaration, ctx: Context)
    requires FounderEvidence(about, d) && ctx.founder == Some(d) && MandatoryCapabilities(ctx.policy) == {}
    ensures var f := d.constitution.member;
            var r := Derive(f, about, ctx);
            && r.currentIdentity == IdentityOf(d) && r.delegatedTerms == d.constitution.delegated
            && r.withdrawn == {} && r.conflicts == []
            && r.lifecycle == if ActivationCurrent(f, about, ctx.epoch) && !Suspended(ctx) then Active else Degraded
  {
    var f := d.constitution.member;
    FounderStands(about, d, ctx.policy, ctx.established);
    EstablishedIffStanding(f, about, ctx);
    FounderSelections(about, d);
    FounderIdentity(about, d);
    hide Operative, Fence, Has, Activation, AdmittedIdentity, CurrentIdentity, WithdrawnBy, ConflictsOf, DeclarationOf, TermsOf,
         MandatoryCapabilities, Suspended, ActivationCurrent, Membership.Standing, LineageOf;
  }

  // ---- the derived state ----------------------------------------------------

  lemma TheGenesis(i: Inputs, d: Declaration, t: Terms)
    requires Lone(i, d, t)
    ensures |OfKind(Accepted(i), FederationGenesis)| == 1 && Founder(Accepted(i)) == Some(d)
  {
    var records := OfKind(Accepted(i), FederationGenesis);
    OfKindKeepsOrder(Accepted(i), FederationGenesis);
    var g :| g in Accepted(i) && g.kind == FederationGenesis && g.body.founder == d &&
             forall h | h in Accepted(i) && h.kind == FederationGenesis :: h == g;
    hide Accepted, OfKind, WorldOf;
    assert g in records;
    SingleInOrder(records, g);
  }

  lemma SingleInOrder(s: seq<Artifact>, g: Artifact)
    requires ByEvidence(s) && g in s && forall h | h in s :: h == g
    ensures s == [g]
  {
    EvidenceOrderUnique(s, [g]);
  }

  lemma TheMember(i: Inputs, d: Declaration, t: Terms)
    requires Lone(i, d, t)
    ensures WorldOf(i).members == [d.constitution.member] && WorldOf(i).founder == Some(d)
    ensures WorldOf(i).accepted == Accepted(i)
  {
    TheGenesis(i, d, t);
    SubjectsAre(Accepted(i));
    HoldersAre(i.leases);
    hide Accepted, OfKind, Subjects, Holders, Founder, EffectivePolicy;
    AscendingUnique(MemberOrder(Accepted(i), i.leases), [d.constitution.member]);
  }

  lemma TheRecords(i: Inputs, d: Declaration, t: Terms)
    requires Lone(i, d, t)
    ensures FounderEvidence(Standing.About(Accepted(i), d.constitution.member), d)
  {
    hide Accepted, FounderRecord;
    var a :| a in Accepted(i) && a.kind == MembershipActivation && a.subject == d.constitution.member;
    assert a in Standing.About(Accepted(i), d.constitution.member);
  }

  lemma OneRound(w: Standing.World, f: Id)
    requires w.members == [f] && Standing.Stands(w, f, {})
    ensures Standing.Established(w) == {f}
  {
    hide Standing.Stands;
    assert Standing.Rounds(w, 0) == {};
    assert Standing.Rounds(w, 1) == {f};
  }

  lemma TheStanding(i: Inputs, d: Declaration, t: Terms)
    requires Lone(i, d, t)
    ensures Standing.Stands(WorldOf(i), d.constitution.member, {})
  {
    TheMember(i, d, t);
    TheRecords(i, d, t);
    hide Accepted, WorldOf, Membership.Standing, Standing.About, Lone, FounderEvidence;
    var f := d.constitution.member;
    FounderStands(Standing.About(Accepted(i), f), d, WorldOf(i).policy, {});
  }

  lemma TheEstablished(i: Inputs, d: Declaration, t: Terms)
    requires Lone(i, d, t)
    ensures Standing.Established(WorldOf(i)) == {d.constitution.member}
    ensures ActiveMembers(i) == [d.constitution.member]
  {
    TheMember(i, d, t);
    TheStanding(i, d, t);
    hide Lone, WorldOf, Accepted, Standing.Established, Standing.Stands, Filtered;
    OneRound(WorldOf(i), d.constitution.member);
    AscendingUnique(ActiveMembers(i), [d.constitution.member]);
  }

  /** A single active member is never partitioned. */
  lemma NoPartition(i: Inputs, d: Declaration, t: Terms)
    requires Lone(i, d, t)
    ensures PartitionOf(i).state == Connected
  {
    TheEstablished(i, d, t);
    hide Accepted, WorldOf, ActiveMembers, StandingDerivation, EpochOf, ClockOf, Lone;
    var f := d.constitution.member;
    var s := Survey([f], Incarnations(i, [f]), i.observations, EpochOf(Accepted(i)),
                    ClockOf(Accepted(i), i.logicalTime), FreshnessTicks(WorldOf(i).policy));
    AscendingUnique(Members(s), [f]);
  }

  ghost predicate FounderActive(i: Inputs, d: Declaration) {
    && ActivationCurrent(d.constitution.member, Standing.About(Accepted(i), d.constitution.member), EpochOf(Accepted(i)))
    && !(IsReconciling(i) && SuspendsWhileReconciling(WorldOf(i).policy))
  }

  lemma ContextFields(i: Inputs)
    ensures var ctx := FinalContext(i);
            && ctx.founder == WorldOf(i).founder && ctx.policy == WorldOf(i).policy
            && ctx.epoch == EpochOf(WorldOf(i).accepted)
            && ctx.partition == PartitionOf(i).state && ctx.reconciling == IsReconciling(i)
  {
    hide WorldOf, EpochOf, PartitionOf, IsReconciling, Standing.Established;
  }

  lemma FounderContext(i: Inputs, d: Declaration, t: Terms)
    requires Lone(i, d, t)
    ensures var ctx := FinalContext(i);
            && ctx.founder == Some(d) && MandatoryCapabilities(ctx.policy) == {}
            && ctx.epoch == EpochOf(Accepted(i))
            && (Suspended(ctx) <==> IsReconciling(i) && SuspendsWhileReconciling(WorldOf(i).policy))
  {
    TheMember(i, d, t);
    NoPartition(i, d, t);
    ContextFields(i);
    OnlyReconciling(FinalContext(i));
    assert MandatoryCapabilities(WorldOf(i).policy) == {} by { hide WorldOf, Accepted, MandatoryCapabilities; }
    hide *;
  }

  lemma OnlyReconciling(ctx: Context)
    ensures ctx.partition == Connected ==> (Suspended(ctx) <==> ctx.reconciling && SuspendsWhileReconciling(ctx.policy))
  {
    hide SuspendsWhileReconciling, SuspendsOnPartition;
  }

  lemma FounderDerived(i: Inputs, d: Declaration, t: Terms)
    requires Lone(i, d, t)
    ensures var r := DerivationOf(i, d.constitution.member);
            && r.currentIdentity == IdentityOf(d) && r.delegatedTerms == [t] && r.withdrawn == {} && r.conflicts == []
            && r.lifecycle == if FounderActive(i, d) then Active else Degraded
  {
    TheRecords(i, d, t);
    FounderContext(i, d, t);
    assert d.constitution.delegated == [t];
    hide Lone, Accepted, WorldOf, Derive, ActivationCurrent, Standing.About, FinalContext, EpochOf, IsReconciling,
         SuspendsWhileReconciling, MandatoryCapabilities, Suspended, FounderEvidence;
    FounderDerivation(Standing.About(Accepted(i), d.constitution.member), d, FinalContext(i));
  }

  lemma TheClaims(i: Inputs, d: Declaration, t: Terms)
    requires Lone(i, d, t)
    ensures ClaimsIn(i) == [Claim(d.constitution.member, t)]
  {
    TheMember(i, d, t);
    FounderDerived(i, d, t);
    hide Lone, Accepted, WorldOf, DerivationOf, PartitionOf, FounderActive;
    var f := d.constitution.member;
    OneBare(i, f);
    OneMember(Bare(i, f), t);
  }

  lemma OneBare(i: Inputs, f: Id)
    ensures BareMembers(i, [f]) == [Bare(i, f)] && MembersIn(i, [f]) == [MemberOf(i, f)]
    ensures Bare(i, f).member == f && Bare(i, f).derivation == DerivationOf(i, f)
  {
    hide MemberOf, DerivationOf, PartitionOf;
  }

  lemma OneMember(m: MemberState, t: Terms)
    requires HoldsFederationAuthority(m.derivation.lifecycle) && m.derivation.delegatedTerms == [t]
    ensures LiveClaims([m]) == [Claim(m.member, t)]
  {
    OneTerm(m.member, t);
    assert LiveClaims([m][..0]) == [];
  }

  lemma OneTerm(f: Id, t: Terms)
    ensures TermClaims(f, [t]) == [Claim(f, t)]
  {
  }

  lemma NothingDisputed(f: Id, t: Terms, policy: Policy, grant: Grant)
    ensures DisputeOver([Claim(f, t)], policy, grant) == Undisputed
    ensures DisputeConflicts([Claim(f, t)], policy) == {}
  {
    forall g: Grant ensures DisputeOver([Claim(f, t)], policy, g) == Undisputed {
      assert |ClaimsOn([Claim(f, t)], g)| <= 1;
    }
  }

  /** The founder's term is in force exactly when nothing of what withholds or suspends
      a term applies. */
  ghost predicate InForce(i: Inputs, d: Declaration, t: Terms) {
    var class_ := Classify(i.catalog, t.grant.scope);
    && class_.Known? && class_ != Known(Local)
    && !DelegationForbidden(WorldOf(i).policy, t.grant.scope)
    && (t.notAfter == 0 || ClockOf(Accepted(i), i.logicalTime) <= t.notAfter)
    && !(class_ == Known(GlobalMutation) && IsReconciling(i) && SuspendsWhileReconciling(WorldOf(i).policy))
    && (FounderActive(i, d) || !Mutating(t.grant.verb))
  }

  lemma TermInForce(i: Inputs, d: Declaration, t: Terms)
    requires Lone(i, d, t)
    ensures DispositionOf(RegimeOf(i), d.constitution.member, DerivationOf(i, d.constitution.member), t) == GrantedNow <==>
            InForce(i, d, t)
  {
    FounderDerived(i, d, t);
    TheClaims(i, d, t);
    NoPartition(i, d, t);
    RegimeFields(i);
    NothingDisputed(d.constitution.member, t, WorldOf(i).policy, t.grant);
    TermGrantedExactly(RegimeOf(i), d.constitution.member, DerivationOf(i, d.constitution.member), t);
    NothingWithdrawn(t.grant);
    hide *;
    assert GlobalMutationSuspended(RegimeOf(i)) <==> IsReconciling(i) && SuspendsWhileReconciling(WorldOf(i).policy) by {
      Suspends(RegimeOf(i));
    }
    Unfolded(i, d, t);
  }

  lemma Suspends(r: Regime)
    requires r.partition == Connected
    ensures GlobalMutationSuspended(r) <==> r.reconciling && SuspendsWhileReconciling(r.policy)
  {
  }

  lemma Unfolded(i: Inputs, d: Declaration, t: Terms)
    ensures InForce(i, d, t) <==>
            var class_ := Classify(i.catalog, t.grant.scope);
            && class_.Known? && class_ != Known(Local)
            && !DelegationForbidden(WorldOf(i).policy, t.grant.scope)
            && (t.notAfter == 0 || ClockOf(Accepted(i), i.logicalTime) <= t.notAfter)
            && !(class_ == Known(GlobalMutation) && IsReconciling(i) && SuspendsWhileReconciling(WorldOf(i).policy))
            && (FounderActive(i, d) || !Mutating(t.grant.verb))
    ensures Mutating(t.grant.verb) <==> t.grant.verb == Mutate || t.grant.verb == Administer
  {
    hide Classify, DelegationForbidden, WorldOf, ClockOf, Accepted, IsReconciling, SuspendsWhileReconciling, FounderActive;
  }

  lemma NothingWithdrawn(grant: Grant)
    ensures !GrantsCover({}, grant)
  {
  }

  lemma NoConflicts(i: Inputs, d: Declaration, t: Terms)
    requires Lone(i, d, t)
    ensures StateConflicts(i) == {}
  {
    TheGenesis(i, d, t);
    TheClaims(i, d, t);
    hide Lone, Accepted, WorldOf, ClaimsIn, OfKind, DisputeConflicts;
    NothingDisputed(d.constitution.member, t, WorldOf(i).policy, t.grant);
  }

  lemma SettledFields(bare: MemberState, r: Regime, conflicts: set<Conflict>, leases: seq<Lease>, t: Terms)
    requires bare.derivation.delegatedTerms == [t] && bare.derivation.conflicts == [] && conflicts == {}
    ensures var m := Settled(bare, r, conflicts, leases);
            && m.member == bare.member && m.derivation == bare.derivation && m.conflicts == {}
            && m.authority == if DispositionOf(r, bare.member, bare.derivation, t) == GrantedNow then {t.grant} else {}
  {
    hide DispositionOf, LeasesHeld;
  }

  lemma StateMembers(i: Inputs)
    ensures StateOf(i).Some? <==> |WorldOf(i).members| <= MAX_MEMBERS
    ensures StateOf(i).Some? ==> StateOf(i).value.members == MembersIn(i, WorldOf(i).members)
  {
    hide WorldOf, EpochOf, ClockOf, IsReconciling, MembersIn, ViewsOf, StateConflicts, Ledger, PartitionOf;
  }

  /** The member record of the founder in the derived state. */
  lemma FounderState(i: Inputs, d: Declaration, t: Terms)
    requires Lone(i, d, t)
    ensures StateOf(i).Some?
    ensures var m := MemberOf(i, d.constitution.member);
            && StateOf(i).value.members == [m] && m.member == d.constitution.member
            && m.derivation == DerivationOf(i, d.constitution.member) && m.conflicts == {}
            && m.authority == if InForce(i, d, t) then {t.grant} else {}
  {
    var f := d.constitution.member;
    TheMember(i, d, t);
    FounderDerived(i, d, t);
    TermInForce(i, d, t);
    NoConflicts(i, d, t);
    StateMembers(i);
    OneBare(i, f);
    SettledFields(Bare(i, f), RegimeOf(i), StateConflicts(i), i.leases, t);
    assert MemberOf(i, f) == Settled(Bare(i, f), RegimeOf(i), StateConflicts(i), i.leases);
    hide *;
  }

  // ---- what the founder is granted ------------------------------------------

  lemma EmptyConflicts(requested: Grant)
    ensures !BlockedBy({}, requested)
  {
  }

  lemma OneGrantCovers(grant: Grant)
    ensures GrantsCover({grant}, grant) && !GrantsCover({}, grant)
  {
    assert Names.Covers(grant.scope, grant.scope);
  }

  lemma FounderActor(q: Question, i: Inputs, d: Declaration, t: Terms)
    requires Lone(i, d, t) && Asks(q, i) && q.request.actor == IdentityOf(d)
    ensures Actor(q) == Some(MemberOf(i, d.constitution.member))
  {
    FounderState(i, d, t);
    hide Lone, StateOf, MemberOf, InForce, DerivationOf;
  }

  lemma UndisturbedActor(q: Question, m: MemberState)
    requires Actor(q) == Some(m) && m.conflicts == {} && m.derivation.currentIdentity == q.request.actor
    requires HoldsFederationAuthority(m.derivation.lifecycle)
    requires Admissible(q) && Classify(q.catalog, q.request.requested.scope) != Known(Local)
    requires Passes(LeasePresented, q) && Passes(NotSuspended, q)
    ensures Decide(q) == Granted <==>
            && Classify(q.catalog, q.request.requested.scope).Known?
            && GrantsCover(m.authority, q.request.requested)
            && (Mutating(q.request.requested.verb) ==> m.derivation.lifecycle == Active)
  {
    GrantedExactly(q);
    EmptyConflicts(q.request.requested);
    hide Actor, GrantsCover, BlockedBy, Admissible, Decide, Classify, LeaseRequired, LeaseHonoured, PartitionSuspends;
  }

  /** Asked for its own term under its own identity, the founder is granted it exactly
      when the term is in force; the lease and the suspension are checked under the
      policy argument of the question and so are kept apart. */
  lemma FounderGranted(q: Question, i: Inputs, d: Declaration, t: Terms)
    requires Lone(i, d, t) && Asks(q, i) && q.request.actor == IdentityOf(d) && q.request.requested == t.grant
    requires Admissible(q) && Classify(i.catalog, t.grant.scope) != Known(Local)
    requires Passes(LeasePresented, q) && Passes(NotSuspended, q)
    ensures Decide(q) == Granted <==> InForce(i, d, t)
  {
    FounderActor(q, i, d, t);
    FounderState(i, d, t);
    FounderDerived(i, d, t);
    UndisturbedActor(q, MemberOf(i, d.constitution.member));
    Unfolded(i, d, t);
    OneGrantCovers(t.grant);
    assert q.catalog == i.catalog by { hide StateOf; }
    hide *;
  }

  // ---- the founding run -----------------------------------------------------

  /** What `create` records for a configured founder, as src/coordinator.cpp:350-405 and
      the activation branch of `decide_locked` fill it in. */
  function GenesisRecord(config: Config, d: Declaration): Artifact {
    Artifact(1, FederationGenesis, config.federation, d.constitution.member, NIL, 1,
             Body(NO_DECLARATION, NO_IDENTITY, d, config.policy, config.policy.generation, 1, 0, [], [], OtherReason,
                  config.initialTick, 0))
  }

  function ActivationRecord(config: Config, d: Declaration): Artifact {
    Artifact(2, MembershipActivation, config.federation, d.constitution.member, NIL, 1,
             Body(NO_DECLARATION, IdentityOf(d), NO_DECLARATION, NO_POLICY, config.policy.generation, 1, 0, [], [],
                  OtherReason, config.initialTick, 0))
  }

  function Records(config: Config, d: Declaration, extra: seq<Artifact>): seq<Artifact> {
    [GenesisRecord(config, d), ActivationRecord(config, d)] + extra
  }

  /** Further records that leave the founder alone in the federation. */
  ghost predicate Extra(config: Config, d: Declaration, extra: seq<Artifact>) {
    && d.constitution.member != NIL && ByEvidence(extra)
    && |extra| < MAX_ARTIFACTS - 2
    && (forall a | a in extra :: a.evidence > 2 && a.kind != FederationGenesis && Concerns(a, d))
    && (forall a | a in Records(config, d, extra) :: a.federation == config.federation && config.valid(a))
  }

  lemma RecordsInOrder(config: Config, d: Declaration, extra: seq<Artifact>)
    requires Extra(config, d, extra)
    ensures ByEvidence(Records(config, d, extra))
  {
    var records := Records(config, d, extra);
    forall j, k | 0 <= j < k < |records| ensures records[j].evidence < records[k].evidence {
      if k >= 2 {
        assert records[k] == extra[k - 2] && extra[k - 2] in extra;
        assert j >= 2 ==> records[j] == extra[j - 2];
      }
    }
  }

  lemma AllAccepted(i: Inputs)
    requires ByEvidence(i.artifacts) && forall a | a in i.artifacts :: a.federation == i.federation && i.valid(a)
    ensures Accepted(i) == i.artifacts
  {
    forall a | a in i.artifacts ensures Acceptable(i, a) {
    }
    EvidenceOrderUnique(Accepted(i), i.artifacts);
  }

  /** Such records make the founder the only member. */
  lemma FounderIsAlone(i: Inputs, config: Config, d: Declaration, t: Terms, extra: seq<Artifact>)
    requires Extra(config, d, extra) && d.constitution.delegated == [t]
    requires i.artifacts == Records(config, d, extra) && i.federation == config.federation && i.valid == config.valid
    requires forall l | l in i.leases :: l.holder.member in {NIL, d.constitution.member}
    requires MandatoryCapabilities(WorldOf(i).policy) == {}
    ensures Lone(i, d, t) && Accepted(i) == Records(config, d, extra)
  {
    hide Accepted, WorldOf, MandatoryCapabilities;
    RecordsInOrder(config, d, extra);
    AllAccepted(i);
    var genesis, activation := GenesisRecord(config, d), ActivationRecord(config, d);
    assert genesis in Accepted(i) && activation in Accepted(i);
    assert forall a | a in Accepted(i) :: a == genesis || a == activation || a in extra;
  }

  // ---- the run --------------------------------------------------------------

  /** The coordinator records its own decisions; members submit theirs. */
  function Entering(a: Artifact): Step {
    Call(if a.issuer == NIL then Record(a, false) else Submit(a), true)
  }

  function EnteringAll(records: seq<Artifact>): (r: seq<Step>)
    ensures |r| == |records|
  {
    if records == [] then [] else EnteringAll(records[..|records| - 1]) + [Entering(records[|records| - 1])]
  }

  function FoundingSteps(config: Config, records: seq<Artifact>): seq<Step> {
    [Start(config, true)] + EnteringAll(records)
  }

  function FoundingLog(records: seq<Artifact>): (log: Log)
    ensures |log| == 1 + |records|
  {
    if records == [] then Appended([], IncarnationEvent(1))
    else Appended(FoundingLog(records[..|records| - 1]), ArtifactEvent(records[|records| - 1]))
  }

  function Founded(config: Config, records: seq<Artifact>): Machine {
    Machine(config, Memory(records, map[], map[], [], config.initialTick, 1, 1), FoundingLog(records))
  }

  ghost function Final(steps: seq<Step>): World {
    WorldAt(steps, |steps|)
  }

  lemma {:induction false} SameWorlds(a: seq<Step>, b: seq<Step>, k: nat)
    requires k <= |a| && k <= |b| && a[..k] == b[..k]
    ensures WorldAt(a, k) == WorldAt(b, k)
  {
    hide Next;
    if k > 0 {
      assert a[..k - 1] == a[..k][..k - 1] && b[..k - 1] == b[..k][..k - 1];
      assert a[k - 1] == a[..k][k - 1] && b[k - 1] == b[..k][k - 1];
      SameWorlds(a, b, k - 1);
    }
  }

  /** One more step. */
  lemma FinalStep(steps: seq<Step>, step: Step)
    ensures Final(steps + [step]) == Next(Final(steps), step).world
  {
    hide Next;
    SameWorlds(steps + [step], steps, |steps|);
  }

  lemma Enters(config: Config, front: seq<Artifact>, a: Artifact)
    requires config.valid(a) && a.federation == config.federation && |front| < MAX_ARTIFACTS
    requires forall b | b in front :: b.evidence != a.evidence
    ensures Next(Up(Founded(config, front)), Entering(a)).world == Up(Founded(config, front + [a]))
  {
    var records := front + [a];
    assert records[..|records| - 1] == front;
    assert !HasEvidence(front, a.evidence);
    assert a !in front;
  }

  /** Started on an empty disk and given the records one by one, the coordinator holds
      exactly them, in memory and in the log. */
  lemma {:induction false} FoundingRun(config: Config, records: seq<Artifact>)
    requires ByEvidence(records) && |records| <= MAX_ARTIFACTS
    requires forall a | a in records :: a.federation == config.federation && config.valid(a)
    ensures Final(FoundingSteps(config, records)) == Up(Founded(config, records))
    ensures IsRun(FoundingSteps(config, records), config.federation)
  {
    hide Next, Founded, WorldAt;
    if records == [] {
      NothingYet(config);
    } else {
      var front, last := records[..|records| - 1], records[|records| - 1];
      FoundingRun(config, front);
      assert records == front + [last];
      assert FoundingSteps(config, records) == FoundingSteps(config, front) + [Entering(last)];
      FinalStep(FoundingSteps(config, front), Entering(last));
      Enters(config, front, last);
    }
  }

  lemma NothingYet(config: Config)
    ensures FoundingSteps(config, []) == [Start(config, true)]
    ensures Final([Start(config, true)]) == Up(Founded(config, []))
  {
    assert Read([]) == NOTHING_READ;
    assert WithRevocations(NOTHING_READ, config.initialTick) == map[];
    assert WorldAt([Start(config, true)], 0) == Down([]);
  }

  /** None of these records is a record of the tick. */
  lemma {:induction false} FoundingRecordsNoTick(records: seq<Artifact>)
    ensures Read(FoundingLog(records)).tick == 0
  {
    if records == [] {
      ReadAppended([], IncarnationEvent(1));
      assert Read([]) == NOTHING_READ;
      hide Read;
    } else {
      var front, last := records[..|records| - 1], records[|records| - 1];
      FoundingRecordsNoTick(front);
      ReadAppended(FoundingLog(front), ArtifactEvent(last));
      hide Read;
    }
  }

  lemma NoLeasesListed(federation: Id)
    ensures LeasesOf(map[], federation) == []
  {
    assert Counters(map[], federation) == {};
  }

  // ---- the founder's federation in the machine ------------------------------

  /** Memory holds the founding records and perhaps more, and only the founder has
      leases. */
  ghost predicate Hosts(m: Machine, d: Declaration, t: Terms, extra: seq<Artifact>) {
    && d.constitution.delegated == [t] && Extra(m.config, d, extra)
    && m.memory.artifacts == Records(m.config, d, extra)
    && (forall id | id in m.memory.leases :: m.memory.leases[id].holder.member == d.constitution.member)
    && MandatoryCapabilities(WorldOf(InputsOf(m)).policy) == {}
  }

  lemma ListedIn(leases: map<LeaseId, Lease>, federation: Id, lease: Lease) returns (id: LeaseId)
    requires lease in LeasesOf(leases, federation)
    ensures id in leases && leases[id] == lease
  {
    hide Ascending;
    var counters := Ascending(Counters(leases, federation));
    var k :| 0 <= k < |counters| && LeasesOf(leases, federation)[k] == lease;
    id := LeaseId(federation, counters[k]);
    assert counters[k] in Counters(leases, federation);
    CounterIsKey(leases, federation, counters[k]);
  }

  lemma InputLists(m: Machine)
    ensures InputsOf(m).leases == LeasesOf(m.memory.leases, m.config.federation)
    ensures InputsOf(m).valid == m.config.valid && InputsOf(m).catalog == m.config.catalog
    ensures InputsOf(m).policy == m.config.policy
  {
    hide LeasesOf, ObservationsOf;
  }

  lemma HostsAlone(m: Machine, d: Declaration, t: Terms, extra: seq<Artifact>)
    requires Hosts(m, d, t, extra)
    ensures Lone(InputsOf(m), d, t) && Accepted(InputsOf(m)) == Records(m.config, d, extra)
  {
    InputFields(m);
    InputLists(m);
    hide InputsOf, LeasesOf, WorldOf, Accepted, MandatoryCapabilities;
    forall l | l in InputsOf(m).leases ensures l.holder.member in {NIL, d.constitution.member} {
      var id := ListedIn(m.memory.leases, m.config.federation, l);
    }
    FounderIsAlone(InputsOf(m), m.config, d, t, extra);
  }

  lemma AskedFields(m: Machine, request: Request)
    requires StateOf(InputsOf(m)).Some?
    ensures var q := Asked(m, request);
            && q.state.federation == m.config.federation && q.state.epoch == EpochOf(Accepted(InputsOf(m)))
            && q.state.ledger == Ledger(m.memory.replay) && q.policy == m.config.policy && q.catalog == m.config.catalog
            && q.request == request && Asks(q, InputsOf(m))
  {
    InputFields(m);
    InputLists(m);
    Runs.StateFields(InputsOf(m));
    Restarts.StateExists(InputsOf(m));
    hide InputsOf, StateOf, Ledger, EpochOf, Accepted;
  }

  /** A first request for a grant the configured policy asks no lease for, at the
      current epoch: the founder is granted it exactly when the term is in force. */
  ghost predicate FreshRequest(m: Machine, d: Declaration, t: Terms, request: Request) {
    && request.federation == m.config.federation != NIL && request.actor == IdentityOf(d) && request.requested == t.grant
    && request.epochSeen == EpochOf(Accepted(InputsOf(m)))
    && !HasReplay(m.memory.replay, request.id) && |m.memory.replay| < MAX_REPLAY_ENTRIES
  }

  lemma FreshIsAdmissible(m: Machine, d: Declaration, t: Terms, request: Request)
    requires FreshRequest(m, d, t, request) && StateOf(InputsOf(m)).Some?
    ensures Admissible(Asked(m, request))
  {
    AskedFields(m, request);
    LedgerDropsNothing(m.memory.replay);
    hide InputsOf, StateOf, Ledger, EpochOf, Accepted, Asked;
  }

  lemma AnswersDecision(m: Machine, d: Declaration, t: Terms, request: Request, digest: nat)
    requires FreshRequest(m, d, t, request) && StateOf(InputsOf(m)).Some?
    ensures EvaluateResult(m, request, digest, true).answer == Answered(Decide(Asked(m, request)))
  {
    hide InputsOf, StateOf, Decide, EpochOf, Accepted, HasReplay;
  }

  lemma FounderAsksFor(m: Machine, d: Declaration, t: Terms, extra: seq<Artifact>, request: Request, digest: nat)
    requires Hosts(m, d, t, extra) && FreshRequest(m, d, t, request)
    requires Classify(m.config.catalog, t.grant.scope) == Known(Federation) && !LeaseRequired(m.config.policy, t.grant)
    ensures StateOf(InputsOf(m)).Some?
    ensures EvaluateResult(m, request, digest, true).answer == Answered(Granted) <==> InForce(InputsOf(m), d, t)
  {
    var i := InputsOf(m);
    HostsAlone(m, d, t, extra);
    FounderState(i, d, t);
    AskedFields(m, request);
    FreshIsAdmissible(m, d, t, request);
    AnswersDecision(m, d, t, request, digest);
    InputLists(m);
    var q := Asked(m, request);
    UnleasedFederationGrant(q);
    assert q.request.actor == IdentityOf(d) && q.request.requested == t.grant;
    assert Classify(i.catalog, t.grant.scope) != Known(Local);
    FounderGranted(q, i, d, t);
    hide *;
  }

  lemma UnleasedFederationGrant(q: Question)
    requires Classify(q.catalog, q.request.requested.scope) == Known(Federation)
    requires !LeaseRequired(q.policy, q.request.requested)
    ensures Passes(LeasePresented, q) && Passes(NotSuspended, q)
  {
    hide Actor, Classify, LeaseRequired;
  }

  /** The lease the founder is issued for its own term. */
  function FoundersLease(m: Machine, d: Declaration, t: Terms, epoch: nat, notAfterEpoch: nat, lifetime: nat): Lease {
    Lease(LeaseId(m.config.federation, m.memory.leaseSequence), m.config.federation, IdentityOf(d), {t.grant},
          epoch, notAfterEpoch, m.memory.tick, m.memory.tick + lifetime, m.memory.incarnation, false, 0, 0)
  }

  lemma LeaseDrawnUp(m: Machine, state: FederationState, d: Declaration, t: Terms, member: MemberState, wanted: LeaseRequest)
    requires FirstMember(state.members, wanted.holder) == Some(member)
    requires HoldsFederationAuthority(member.derivation.lifecycle) && member.derivation.currentIdentity == IdentityOf(d)
    requires member.authority == {t.grant} && wanted.scopes == [t.grant]
    requires 0 < wanted.lifetime <= LeaseLifetime(m.config.policy) && m.memory.tick + wanted.lifetime < U64_END
    requires |state.leases| < MAX_LEASES && wanted.notAfterEpoch >= state.epoch > 0
    ensures LeaseFor(m, state, wanted) ==
            Granting(FoundersLease(m, d, t, state.epoch, wanted.notAfterEpoch, wanted.lifetime))
  {
    OneGrantCovers(t.grant);
    assert Elements([t.grant]) == {t.grant};
    hide FirstMember, GrantsCover, LeaseLifetime;
  }

  lemma StateLeases(i: Inputs)
    requires StateOf(i).Some?
    ensures |StateOf(i).value.leases| == |i.leases|
  {
    hide WorldOf, EpochOf, ClockOf, IsReconciling, MembersIn, StateConflicts, Ledger, PartitionOf;
  }

  /** While its term is in force the founder can have it leased. */
  lemma FounderLeases(m: Machine, d: Declaration, t: Terms, extra: seq<Artifact>, wanted: LeaseRequest)
    requires Hosts(m, d, t, extra) && InForce(InputsOf(m), d, t)
    requires wanted.holder == d.constitution.member && wanted.scopes == [t.grant]
    requires 0 < wanted.lifetime <= LeaseLifetime(m.config.policy) && m.memory.tick + wanted.lifetime < U64_END
    requires |InputsOf(m).leases| < MAX_LEASES && wanted.notAfterEpoch >= EpochOf(Accepted(InputsOf(m)))
    ensures IssueResult(m, wanted, true).answer ==
            Granting(FoundersLease(m, d, t, EpochOf(Accepted(InputsOf(m))), wanted.notAfterEpoch, wanted.lifetime))
    ensures IssueResult(m, wanted, true).machine ==
            Ticked(WithLease(m, FoundersLease(m, d, t, EpochOf(Accepted(InputsOf(m))), wanted.notAfterEpoch, wanted.lifetime)))
  {
    var i := InputsOf(m);
    HostsAlone(m, d, t, extra);
    FounderState(i, d, t);
    FounderDerived(i, d, t);
    Restarts.StateExists(i);
    StateLeases(i);
    var member := MemberOf(i, d.constitution.member);
    assert FirstMember([member], d.constitution.member) == Some(member) by { hide MemberOf; }
    LeaseDrawnUp(m, StateOf(i).value, d, t, member, wanted);
    hide InputsOf, StateOf, LeaseFor, MemberOf, Lone, Hosts, InForce, FounderActive, DerivationOf, Accepted, EpochOf,
         LeaseLifetime, FoundersLease;
  }

  // ---- the quiet case -------------------------------------------------------

  /** The further records advance no epoch and re-attest nothing. */
  ghost predicate Quiet(extra: seq<Artifact>) {
    forall a | a in extra :: a.kind !in {EpochAdvance, MemberReattestation} &&
      (a.kind == MembershipActivation ==> a.body.epoch == 1)
  }

  ghost predicate NoUpdate(extra: seq<Artifact>) {
    forall a | a in extra :: a.kind != PolicyUpdate
  }

  lemma NoRecovery(accepted: seq<Artifact>)
    requires forall a | a in accepted :: !RecoversFromPartition(a)
    ensures Recovery(accepted).None?
  {
    EmptyTogether(Filter(accepted, RecoversFromPartition), []);
  }

  lemma NoAdvance(accepted: seq<Artifact>)
    requires forall a | a in accepted :: a.kind != EpochAdvance
    ensures EpochOf(accepted) == 1 && Recovery(accepted).None?
  {
    EpochIsLargestAdvance(accepted);
    NoRecovery(accepted);
    hide EpochOf, Recovery;
  }

  lemma NoPolicyUpdate(accepted: seq<Artifact>, configured: Policy)
    requires forall a | a in accepted :: a.kind != PolicyUpdate
    requires Genesis(accepted).Some?
    ensures EffectivePolicy(accepted, configured) == Genesis(accepted).value.body.policy
  {
    EmptyTogether(OfKind(accepted, PolicyUpdate), []);
  }

  lemma GenesisAmongRecords(config: Config, d: Declaration, extra: seq<Artifact>)
    requires Extra(config, d, extra)
    ensures Genesis(Records(config, d, extra)) == Some(GenesisRecord(config, d))
  {
    RecordsInOrder(config, d, extra);
    var records := Records(config, d, extra);
    OfKindKeepsOrder(records, FederationGenesis);
    hide OfKind;
    assert records[0] == GenesisRecord(config, d) && records[1] == ActivationRecord(config, d);
    SingleInOrder(OfKind(records, FederationGenesis), GenesisRecord(config, d));
  }

  lemma QuietRecords(config: Config, d: Declaration, extra: seq<Artifact>)
    requires Quiet(extra)
    ensures forall a | a in Records(config, d, extra) :: a.kind !in {EpochAdvance, MemberReattestation} &&
              (a.kind == MembershipActivation ==> a.body.epoch == 1)
    ensures NoUpdate(extra) ==> forall a | a in Records(config, d, extra) :: a.kind != PolicyUpdate
  {
    RecordsAre(config, d, extra);
    hide Records;
  }

  lemma RecordsAre(config: Config, d: Declaration, extra: seq<Artifact>)
    ensures forall a | a in Records(config, d, extra) ::
              a == GenesisRecord(config, d) || a == ActivationRecord(config, d) || a in extra
  {
  }

  lemma QuietEpoch(i: Inputs, config: Config, d: Declaration, extra: seq<Artifact>)
    requires Quiet(extra) && Accepted(i) == Records(config, d, extra)
    ensures EpochOf(Accepted(i)) == 1 && !IsReconciling(i)
  {
    QuietRecords(config, d, extra);
    NoAdvance(Accepted(i));
    hide Accepted, EpochOf, Recovery, Records;
  }

  lemma UnchangedPolicy(i: Inputs, config: Config, d: Declaration, extra: seq<Artifact>)
    requires Extra(config, d, extra) && Quiet(extra) && NoUpdate(extra) && Accepted(i) == Records(config, d, extra)
    ensures WorldOf(i).policy == config.policy
  {
    QuietRecords(config, d, extra);
    GenesisAmongRecords(config, d, extra);
    NoPolicyUpdate(Accepted(i), i.policy);
    hide Accepted, Genesis, EffectivePolicy, MemberOrder, Founder, Records;
  }

  /** Without re-attestations the activation record decides, which names epoch one. */
  lemma ActiveAtFirstEpoch(about: seq<Artifact>, d: Declaration)
    requires FounderEvidence(about, d)
    requires forall a | a in about :: a.kind != MemberReattestation && (a.kind == MembershipActivation ==> a.body.epoch == 1)
    ensures ActivationCurrent(d.constitution.member, about, 1)
  {
    var f := d.constitution.member;
    FounderLineage(about, d, f);
    NoneOfKind(about, 0, MemberReattestation);
    hide LineageOf;
    NothingOwned(f);
  }

  lemma QuietAbout(accepted: seq<Artifact>, config: Config, d: Declaration, extra: seq<Artifact>)
    requires accepted == Records(config, d, extra) && Quiet(extra)
    ensures forall a | a in Standing.About(accepted, d.constitution.member) ::
              a.kind != MemberReattestation && (a.kind == MembershipActivation ==> a.body.epoch == 1)
  {
    QuietRecords(config, d, extra);
    hide Records;
  }

  /** At the first epoch the founder is active. */
  lemma QuietFounder(i: Inputs, config: Config, d: Declaration, t: Terms, extra: seq<Artifact>)
    requires Lone(i, d, t) && Quiet(extra) && Accepted(i) == Records(config, d, extra)
    ensures FounderActive(i, d)
  {
    TheRecords(i, d, t);
    QuietEpoch(i, config, d, extra);
    QuietAbout(Accepted(i), config, d, extra);
    ActiveAtFirstEpoch(Standing.About(Accepted(i), d.constitution.member), d);
    assert FounderActive(i, d) by { hide Lone, Quiet, Accepted, ActivationCurrent, IsReconciling, EpochOf; }
    hide *;
  }

  // ---- a concrete federation ------------------------------------------------

  const SCOPE := "s"

  /** The one term the founder declares. */
  function Offer(notAfter: nat): Terms {
    Terms(Grant(SCOPE, Mutate), Shared, 0, notAfter, "")
  }

  function Charter(notAfter: nat): Declaration {
    Declaration(Constitution(2, 7, 1, {}, [], [Offer(notAfter)], 0), 1, 3, 0)
  }

  /** One catalogued federation scope, a policy without rules, a clock that starts at
      one, and a validation that accepts the records used. */
  ghost predicate Plain(config: Config, d: Declaration, extra: seq<Artifact>) {
    && config.federation == 1 && config.initialTick == 1 && config.policy.rules == []
    && config.catalog == map[SCOPE := Federation]
    && Extra(config, d, extra)
  }

  /** Such a configuration, and a constitution that passes validation under it. */
  function PlainConfig(): Config {
    Config(1, Policy(1, [], 0), map[SCOPE := Federation], 1, (a: Artifact) => true, (r: set<nat>, o: set<nat>) => true)
  }

  lemma PlainConfigIsPlain(notAfter: nat, extra: seq<Artifact>)
    requires ByEvidence(extra) && |extra| < MAX_ARTIFACTS - 2
    requires forall a | a in extra ::
               a.evidence > 2 && a.kind != FederationGenesis && Concerns(a, Charter(notAfter)) && a.federation == 1
    ensures Plain(PlainConfig(), Charter(notAfter), extra)
    ensures WellFormedConstitution(Charter(notAfter).constitution, PlainConfig().catalog)
  {
    RecordsAre(PlainConfig(), Charter(notAfter), extra);
    ScopeIsFederation(PlainConfig().catalog);
    hide Classify, Records;
  }

  function Ask(id: Id, notAfter: nat, epoch: nat): Request {
    Request(id, 1, epoch, IdentityOf(Charter(notAfter)), Offer(notAfter).grant, NoLease)
  }

  lemma NoRules(policy: Policy, grant: Grant)
    requires policy.rules == []
    ensures MandatoryCapabilities(policy) == {} && !LeaseRequired(policy, grant) && !DelegationForbidden(policy, grant.scope)
    ensures LeaseLifetime(policy) == DEFAULT_LEASE_LIFETIME
  {
  }

  lemma ScopeIsFederation(catalog: Catalog)
    requires catalog == map[SCOPE := Federation]
    ensures Classify(catalog, SCOPE) == Known(Federation)
  {
  }

  /** In a plain and quiet federation the founder's term is in force exactly until the
      federation clock has passed its deadline. */
  lemma QuietTerm(m: Machine, notAfter: nat, extra: seq<Artifact>)
    requires Plain(m.config, Charter(notAfter), extra) && Quiet(extra)
    requires m.memory.artifacts == Records(m.config, Charter(notAfter), extra)
    requires forall id | id in m.memory.leases :: m.memory.leases[id].holder.member == 7
    requires var policy := WorldOf(InputsOf(m)).policy;
             MandatoryCapabilities(policy) == {} && !DelegationForbidden(policy, SCOPE)
    ensures Hosts(m, Charter(notAfter), Offer(notAfter), extra)
    ensures EpochOf(Accepted(InputsOf(m))) == 1
    ensures InForce(InputsOf(m), Charter(notAfter), Offer(notAfter)) <==>
            notAfter == 0 || ClockOf(Accepted(InputsOf(m)), m.memory.tick) <= notAfter
  {
    var i, d, t := InputsOf(m), Charter(notAfter), Offer(notAfter);
    InputFields(m);
    InputLists(m);
    assert Hosts(m, d, t, extra) by { hide WorldOf, InputsOf, Extra, Records, MandatoryCapabilities; }
    HostsAlone(m, d, t, extra);
    QuietEpoch(i, m.config, d, extra);
    QuietFounder(i, m.config, d, t, extra);
    ScopeIsFederation(m.config.catalog);
    assert Classify(i.catalog, t.grant.scope) == Known(Federation);
    Unfolded(i, d, t);
    assert t.notAfter == notAfter && t.grant.scope == SCOPE;
    hide *;
  }

  lemma AcceptedAsRecorded(m: Machine, d: Declaration, extra: seq<Artifact>)
    requires Extra(m.config, d, extra) && m.memory.artifacts == Records(m.config, d, extra)
    ensures Accepted(InputsOf(m)) == Records(m.config, d, extra)
  {
    InputFields(m);
    InputLists(m);
    RecordsInOrder(m.config, d, extra);
    hide InputsOf, Records;
    AllAccepted(InputsOf(m));
  }

  lemma PlainTerm(m: Machine, notAfter: nat, extra: seq<Artifact>)
    requires Plain(m.config, Charter(notAfter), extra) && Quiet(extra) && NoUpdate(extra)
    requires m.memory.artifacts == Records(m.config, Charter(notAfter), extra)
    requires forall id | id in m.memory.leases :: m.memory.leases[id].holder.member == 7
    ensures Hosts(m, Charter(notAfter), Offer(notAfter), extra)
    ensures EpochOf(Accepted(InputsOf(m))) == 1
    ensures InForce(InputsOf(m), Charter(notAfter), Offer(notAfter)) <==>
            notAfter == 0 || ClockOf(Accepted(InputsOf(m)), m.memory.tick) <= notAfter
  {
    AcceptedAsRecorded(m, Charter(notAfter), extra);
    UnchangedPolicy(InputsOf(m), m.config, Charter(notAfter), extra);
    NoRules(m.config.policy, Offer(notAfter).grant);
    hide InputsOf, Accepted, WorldOf, Records, Extra, MandatoryCapabilities, DelegationForbidden;
    QuietTerm(m, notAfter, extra);
  }

  lemma PlainFresh(m: Machine, notAfter: nat, request: Request)
    requires m.config.federation == 1 && EpochOf(Accepted(InputsOf(m))) == request.epochSeen
    requires request == Ask(request.id, notAfter, request.epochSeen)
    requires !HasReplay(m.memory.replay, request.id) && |m.memory.replay| < MAX_REPLAY_ENTRIES
    ensures FreshRequest(m, Charter(notAfter), Offer(notAfter), request)
  {
    hide InputsOf, Accepted, EpochOf, HasReplay;
  }
}
