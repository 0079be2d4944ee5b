// src/membership.cpp, derive_membership: the successive scans over one member's
// artefacts, proved to compute Membership.Derive. Scans the source writes inline
// are methods here, one per section of the original.
module MembershipDerivation {
  import opened Sequences
  import opened Scopes
  import opened Policies
  import opened Identities
  import opened Evidence
  import opened Membership

  // ---- section 1: the current lineage ---------------------------------------

  method SelectLineage(member: Id, artifacts: seq<Artifact>) returns (lineage: nat)
    ensures lineage == LineageOf(member, artifacts)
  {
    var leaveLineages: set<nat> := {};
    var presentLineages: set<nat> := {};
    for i := 0 to |artifacts|
      invariant forall l :: l in presentLineages <==> Present(artifacts[..i], l)
      invariant forall l :: l in leaveLineages <==> ClosedBySelf(member, artifacts[..i], l)
    {
      var artifact := artifacts[i];
      assert artifacts[..i + 1] == artifacts[..i] + [artifact];
      presentLineages := presentLineages + {artifact.body.lineage};
      if artifact.kind == MembershipLeave && artifact.issuer == member {
        leaveLineages := leaveLineages + {artifact.body.lineage};
      }
    }
    assert artifacts[..|artifacts|] == artifacts;
    lineage := 0;
    for guard := 0 to |artifacts| + 1
      invariant lineage == guard && LineageReachable(member, artifacts, lineage)
    {
      if lineage !in leaveLineages || lineage + 1 !in presentLineages {
        LineageIsUnique(member, artifacts, lineage, LineageOf(member, artifacts));
        return;
      }
      assert Advances(member, artifacts, lineage);
      lineage := lineage + 1;
    }
    // The guard is never what ends the search.
    ReachableLineageIsBounded(member, artifacts, lineage);
    assert false;
  }

  // ---- section 2: one bucket per kind ---------------------------------------

  datatype Buckets = Buckets(
    proposals: seq<Artifact>, acceptances: seq<Artifact>, endorsements: seq<Artifact>,
    admissions: seq<Artifact>, activations: seq<Artifact>, reattestations: seq<Artifact>,
    leaves: seq<Artifact>, fences: seq<Artifact>, retirements: seq<Artifact>,
    delegations: seq<Artifact>, withdrawals: seq<Artifact>)

  ghost predicate Sorted(b: Buckets, artifacts: seq<Artifact>, lineage: nat) {
    && b.proposals == InLineage(artifacts, lineage, MembershipProposal)
    && b.acceptances == InLineage(artifacts, lineage, MembershipAcceptance)
    && b.endorsements == InLineage(artifacts, lineage, MembershipEndorsement)
    && b.admissions == InLineage(artifacts, lineage, MembershipAdmission)
    && b.activations == InLineage(artifacts, lineage, MembershipActivation)
    && b.reattestations == InLineage(artifacts, lineage, MemberReattestation)
    && b.leaves == InLineage(artifacts, lineage, MembershipLeave)
    && b.fences == InLineage(artifacts, lineage, MembershipFence)
    && b.retirements == InLineage(artifacts, lineage, MembershipRetirement)
    && b.delegations == InLineage(artifacts, lineage, DelegationDeclaration)
    && b.withdrawals == InLineage(artifacts, lineage, DelegationWithdrawal)
  }

  lemma InLineageStep(artifacts: seq<Artifact>, lineage: nat, kind: Kind, i: nat)
    requires i < |artifacts|
    ensures InLineage(artifacts[..i + 1], lineage, kind) ==
            InLineage(artifacts[..i], lineage, kind) +
            (if artifacts[i].kind == kind && artifacts[i].body.lineage == lineage then [artifacts[i]] else [])
  {
    assert artifacts[..i + 1][..i] == artifacts[..i];
  }

  lemma InLineageEmpty(lineage: nat, kind: Kind)
    ensures InLineage([], lineage, kind) == []
  {
  }

  method Collect(artifacts: seq<Artifact>, lineage: nat) returns (b: Buckets)
    ensures Sorted(b, artifacts, lineage)
  {
    hide InLineage;
    b := Buckets([], [], [], [], [], [], [], [], [], [], []);
    forall kind { InLineageEmpty(lineage, kind); }
    assert artifacts[..0] == [];
    for i := 0 to |artifacts|
      invariant Sorted(b, artifacts[..i], lineage)
    {
      var artifact := artifacts[i];
      forall kind {
        InLineageStep(artifacts, lineage, kind, i);
      }
      if artifact.body.lineage != lineage {
        continue;
      }
      match artifact.kind {
        case MembershipProposal => b := b.(proposals := b.proposals + [artifact]);
        case MembershipAcceptance => b := b.(acceptances := b.acceptances + [artifact]);
        case MembershipEndorsement => b := b.(endorsements := b.endorsements + [artifact]);
        case MembershipAdmission => b := b.(admissions := b.admissions + [artifact]);
        case MembershipActivation => b := b.(activations := b.activations + [artifact]);
        case MemberReattestation => b := b.(reattestations := b.reattestations + [artifact]);
        case MembershipLeave => b := b.(leaves := b.leaves + [artifact]);
        case MembershipFence => b := b.(fences := b.fences + [artifact]);
        case MembershipRetirement => b := b.(retirements := b.retirements + [artifact]);
        case DelegationDeclaration => b := b.(delegations := b.delegations + [artifact]);
        case DelegationWithdrawal => b := b.(withdrawals := b.withdrawals + [artifact]);
        case _ =>
      }
    }
    assert artifacts[..|artifacts|] == artifacts;
  }

  // ---- section 3: the operative proposal ------------------------------------

  method WithoutSelfProposals(member: Id, proposals: seq<Artifact>) returns (sponsored: seq<Artifact>)
    ensures sponsored == Sponsored(member, proposals)
  {
    sponsored := [];
    for i := 0 to |proposals|
      invariant sponsored == Sponsored(member, proposals[..i])
    {
      assert proposals[..i + 1][..i] == proposals[..i];
      if proposals[i].issuer != member {
        sponsored := sponsored + [proposals[i]];
      }
    }
    assert proposals[..|proposals|] == proposals;
  }

  method ChooseProposal(proposals: seq<Artifact>) returns (chosen: Option<Artifact>)
    ensures chosen == Pick(proposals, HigherGeneration)
  {
    chosen := None;
    for i := 0 to |proposals|
      invariant chosen == Pick(proposals[..i], HigherGeneration)
    {
      PickStep(proposals, HigherGeneration, i);
      var candidate := proposals[i];
      if chosen.None? ||
         chosen.value.body.declaration.constitution.generation <
         candidate.body.declaration.constitution.generation ||
         (chosen.value.body.declaration.constitution.generation ==
          candidate.body.declaration.constitution.generation &&
          candidate.evidence < chosen.value.evidence) {
        chosen := Some(candidate);
      }
    }
    assert proposals[..|proposals|] == proposals;
  }

  method DisagreeingProposals(proposals: seq<Artifact>, chosen: Artifact) returns (conflicts: seq<Conflict>)
    ensures conflicts == IdentityConflicts(proposals, chosen)
  {
    conflicts := [];
    for i := 0 to |proposals|
      invariant conflicts == IdentityConflicts(proposals[..i], chosen)
    {
      assert proposals[..i + 1][..i] == proposals[..i];
      var other := proposals[i];
      if other.body.declaration.constitution != chosen.body.declaration.constitution {
        conflicts := conflicts + [Conflict(NO_GRANT, ConflictingIdentity, {chosen.issuer, other.issuer})];
      }
    }
    assert proposals[..|proposals|] == proposals;
  }

  // ---- section 4: consent, endorsement, re-attestation ----------------------

  method FindConsent(member: Id, acceptances: seq<Artifact>, proposal: Artifact)
    returns (acceptance: Option<Artifact>)
    ensures acceptance == Pick(Matching(member, acceptances, proposal), LowerEvidence)
  {
    acceptance := None;
    for i := 0 to |acceptances|
      invariant acceptance == Pick(Matching(member, acceptances[..i], proposal), LowerEvidence)
    {
      var candidate := acceptances[i];
      assert acceptances[..i + 1][..i] == acceptances[..i];
      ghost var before, after := Matching(member, acceptances[..i], proposal),
                                 Matching(member, acceptances[..i + 1], proposal);
      if candidate.issuer != member {
        assert after == before;
        continue;
      }
      if candidate.body.declaredIdentity.constitution != DigestOf(proposal.body.declaration.constitution) {
        assert after == before;
        continue;
      }
      assert after == before + [candidate] && after[..|before|] == before;
      if acceptance.None? || candidate.evidence < acceptance.value.evidence {
        acceptance := Some(candidate);
      }
    }
    assert acceptances[..|acceptances|] == acceptances;
  }

  method CollectEndorsers(member: Id, endorsements: seq<Artifact>, proposal: Artifact, established: set<Id>)
    returns (endorsers: set<Id>)
    ensures endorsers == EndorsersAmong(endorsements, member, proposal, established)
  {
    endorsers := {};
    for i := 0 to |endorsements|
      invariant endorsers == EndorsersAmong(endorsements[..i], member, proposal, established)
    {
      var candidate := endorsements[i];
      assert endorsements[..i + 1] == endorsements[..i] + [candidate];
      if candidate.issuer == member || candidate.issuer == proposal.issuer {
        continue;
      }
      if candidate.body.declaredIdentity.constitution != DigestOf(proposal.body.declaration.constitution) {
        continue;
      }
      if candidate.issuer !in established {
        continue;
      }
      endorsers := endorsers + {candidate.issuer};
    }
    assert endorsements[..|endorsements|] == endorsements;
  }

  method Owned(member: Id, artifacts: seq<Artifact>) returns (owned: seq<Artifact>)
    ensures owned == OwnedBy(member, artifacts)
  {
    owned := [];
    for i := 0 to |artifacts|
      invariant owned == OwnedBy(member, artifacts[..i])
    {
      assert artifacts[..i + 1][..i] == artifacts[..i];
      if artifacts[i].issuer == member {
        owned := owned + [artifacts[i]];
      }
    }
    assert artifacts[..|artifacts|] == artifacts;
  }

  /** The back of the list sorted by epoch, incarnation and evidence. */
  method LastInOrder(owned: seq<Artifact>) returns (latest: Option<Artifact>)
    ensures latest == Pick(owned, LaterAttestation)
  {
    latest := None;
    for i := 0 to |owned|
      invariant latest == Pick(owned[..i], LaterAttestation)
    {
      PickStep(owned, LaterAttestation, i);
      if latest.None? || LaterAttestation(owned[i], latest.value) {
        latest := Some(owned[i]);
      }
    }
    assert owned[..|owned|] == owned;
  }

  // ---- section 5: multi-party assessment ------------------------------------

  /** src/membership.cpp, assess_multi_party. */
  method AssessMultiParty(candidate: Id, proposer: Id, proposerActive: bool, endorsers: set<Id>,
                          policy: Policy, bootstrap: bool) returns (satisfied: bool)
    ensures satisfied == (bootstrap || MultiPartySatisfied(candidate, proposer, proposerActive, endorsers, policy))
  {
    hide PartiesRequired, EndorsementsRequired, Parties;
    var parties := CollectParties(candidate, proposer, endorsers);
    var counted := endorsers - {NIL, candidate, proposer};
    if bootstrap {
      return true;
    }
    var requiredParties := RequiredDistinctParties(policy);
    var requiredEndorsements := RequiredEndorsements(policy);
    satisfied := true;
    if proposer == candidate {
      satisfied := false;
    }
    if !proposerActive {
      satisfied := false;
    }
    if |parties| < requiredParties {
      satisfied := false;
    }
    if |counted| < requiredEndorsements {
      satisfied := false;
    }
  }

  method CollectParties(candidate: Id, proposer: Id, endorsers: set<Id>) returns (parties: set<Id>)
    ensures parties == Parties(candidate, proposer, endorsers)
  {
    parties := {};
    if proposer != NIL {
      parties := parties + {proposer};
    }
    if candidate != NIL {
      parties := parties + {candidate};
    }
    parties := parties + (endorsers - {NIL});
  }

  // ---- sections 6 and 7: fences and activation ------------------------------

  lemma NoFences(member: Id)
    ensures AcceptedFences(member, []) == []
  {
  }

  lemma FencesStep(member: Id, fences: seq<Artifact>, i: nat)
    requires i < |fences|
    ensures AcceptedFences(member, fences[..i + 1]) == AcceptedFences(member, fences[..i]) +
            (if fences[i].issuer == member || fences[i].issuer == NIL then [fences[i]] else [])
  {
    assert fences[..i + 1][..i] == fences[..i];
  }

  method FenceInForce(member: Id, fences: seq<Artifact>) returns (fenced: bool, fenceEpoch: nat)
    ensures var fence := Pick(AcceptedFences(member, fences), HigherFenceEpoch);
            fenced == fence.Some? && (fenced ==> fenceEpoch == fence.value.body.epoch)
  {
    hide AcceptedFences, Pick;
    fenced, fenceEpoch := false, 0;
    NoFences(member);
    assert fences[..0] == [];
    for i := 0 to |fences|
      invariant var fence := Pick(AcceptedFences(member, fences[..i]), HigherFenceEpoch);
                fenced == fence.Some? && (fenced ==> fenceEpoch == fence.value.body.epoch)
    {
      var candidate := fences[i];
      ghost var before := AcceptedFences(member, fences[..i]);
      FencesStep(member, fences, i);
      PickAppend(before, candidate, HigherFenceEpoch);
      assert before + [] == before;
      var selfFence := candidate.issuer == member;
      if !selfFence && candidate.issuer != NIL {
        continue;
      }
      if !fenced || fenceEpoch < candidate.body.epoch {
        fenced, fenceEpoch := true, candidate.body.epoch;
      }
    }
    assert fences[..|fences|] == fences;
  }

  method NewestActivation(activations: seq<Artifact>) returns (activation: Option<Artifact>)
    ensures activation == Pick(activations, LaterEpoch)
  {
    activation := None;
    for i := 0 to |activations|
      invariant activation == Pick(activations[..i], LaterEpoch)
    {
      PickStep(activations, LaterEpoch, i);
      var candidate := activations[i];
      if activation.None? || candidate.body.epoch > activation.value.body.epoch ||
         (candidate.body.epoch == activation.value.body.epoch &&
          candidate.evidence < activation.value.evidence) {
        activation := Some(candidate);
      }
    }
    assert activations[..|activations|] == activations;
  }

  method SupersededIncarnations(activations: seq<Artifact>, current: Identity) returns (superseded: set<nat>)
    ensures superseded == Membership.Superseded(activations, current)
  {
    superseded := {};
    for i := 0 to |activations|
      invariant superseded == Membership.Superseded(activations[..i], current)
    {
      assert activations[..i + 1] == activations[..i] + [activations[i]];
      if activations[i].body.declaredIdentity.incarnation != current.incarnation {
        superseded := superseded + {activations[i].body.declaredIdentity.incarnation};
      }
    }
    assert activations[..|activations|] == activations;
  }

  /** Each own re-attestation overwrites the verdict of the one before it. */
  method DeclarationIsCurrent(member: Id, activation: Option<Artifact>, reattestations: seq<Artifact>,
                              epoch: nat) returns (current: bool)
    ensures current == var own := OwnedBy(member, reattestations);
                       if own != [] then own[|own| - 1].body.epoch >= epoch
                       else activation.Some? ==> activation.value.body.epoch == epoch
  {
    current := true;
    if activation.Some? {
      current := activation.value.body.epoch == epoch;
    }
    for i := 0 to |reattestations|
      invariant current == var own := OwnedBy(member, reattestations[..i]);
                           if own != [] then own[|own| - 1].body.epoch >= epoch
                           else activation.Some? ==> activation.value.body.epoch == epoch
    {
      assert reattestations[..i + 1][..i] == reattestations[..i];
      var candidate := reattestations[i];
      if candidate.issuer != member {
        continue;
      }
      current := candidate.body.epoch >= epoch;
    }
    assert reattestations[..|reattestations|] == reattestations;
  }

  method ChooseLifecycle(b: Buckets, bootstrapMember: bool, fenced: bool, fenceEpoch: nat,
                         activation: Option<Artifact>, admissionValid: bool, same: bool,
                         generationChanged: bool, current: bool, declaration: Declaration, ctx: Context)
    returns (lifecycle: Lifecycle)
    ensures lifecycle ==
            Ladder(b.retirements != [], b.leaves != [], b.proposals != [], bootstrapMember,
                   fenced && (activation.None? || activation.value.body.epoch <= fenceEpoch),
                   admissionValid, activation.Some?, same,
                   generationChanged && ReconsentOnGenerationChange(ctx.policy), current,
                   Suspended(ctx) ||
                   (MandatoryCapabilities(ctx.policy) != {} &&
                    !ctx.compatible(MandatoryCapabilities(ctx.policy), declaration.constitution.capabilities)))
  {
    if b.retirements != [] {
      return Retired;
    } else if b.leaves != [] {
      return Leaving;
    } else if b.proposals == [] && !bootstrapMember {
      return Absent;
    } else if fenced && (activation.None? || !(fenceEpoch < activation.value.body.epoch)) {
      return Fenced;
    } else if !admissionValid {
      return Proposed;
    } else if activation.None? {
      return Admitted;
    } else if !same {
      var reconsent := ReconsentRequired(ctx.policy);
      if generationChanged && reconsent {
        return Fenced;
      }
      return Admitted;
    } else if !current {
      return Degraded;
    }
    var degraded := false;
    if ctx.reconciling && SuspendsWhileReconciling(ctx.policy) {
      degraded := true;
    }
    if ctx.partition == Split && SuspendsOnPartition(ctx.policy) {
      degraded := true;
    } else if ctx.partition == Indeterminate && SuspendsOnPartition(ctx.policy) {
      degraded := true;
    }
    var required := MandatoryCapabilities(ctx.policy);
    if required != {} {
      if !ctx.compatible(required, declaration.constitution.capabilities) {
        degraded := true;
      }
    }
    return if degraded then Degraded else Active;
  }

  // ---- section 9: delegation ------------------------------------------------

  method LatestDelegation(member: Id, delegations: seq<Artifact>) returns (latest: Option<Artifact>)
    ensures latest == Pick(OwnedBy(member, delegations), LaterIssue)
  {
    latest := None;
    for i := 0 to |delegations|
      invariant latest == Pick(OwnedBy(member, delegations[..i]), LaterIssue)
    {
      var candidate := delegations[i];
      assert delegations[..i + 1][..i] == delegations[..i];
      ghost var before, after := OwnedBy(member, delegations[..i]), OwnedBy(member, delegations[..i + 1]);
      if candidate.issuer != member {
        assert after == before;
        continue;
      }
      assert after == before + [candidate] && after[..|before|] == before;
      if latest.None? || latest.value.issuerEpoch < candidate.issuerEpoch ||
         (latest.value.issuerEpoch == candidate.issuerEpoch &&
          candidate.evidence < latest.value.evidence) {
        latest := Some(candidate);
      }
    }
    assert delegations[..|delegations|] == delegations;
  }

  lemma WithdrawalsStep(withdrawals: seq<Artifact>, member: Id, i: nat)
    requires i < |withdrawals|
    ensures Withdrawals(withdrawals[..i + 1], member) ==
            Withdrawals(withdrawals[..i], member) +
            (if withdrawals[i].issuer == member then set g | g in withdrawals[i].body.withdrawnGrants else {})
  {
    assert withdrawals[..i + 1] == withdrawals[..i] + [withdrawals[i]];
  }

  method CollectWithdrawals(member: Id, withdrawals: seq<Artifact>) returns (grants: set<Grant>)
    ensures grants == Withdrawals(withdrawals, member)
  {
    grants := {};
    for i := 0 to |withdrawals|
      invariant grants == Withdrawals(withdrawals[..i], member)
    {
      var candidate := withdrawals[i];
      if candidate.issuer != member {
        WithdrawalsStep(withdrawals, member, i);
        continue;
      }
      ghost var before := grants;
      for j := 0 to |candidate.body.withdrawnGrants|
        invariant grants == before + set g | g in candidate.body.withdrawnGrants[..j]
      {
        assert candidate.body.withdrawnGrants[..j + 1] ==
               candidate.body.withdrawnGrants[..j] + [candidate.body.withdrawnGrants[j]];
        grants := grants + {candidate.body.withdrawnGrants[j]};
      }
      assert grants == before + set g | g in candidate.body.withdrawnGrants;
      WithdrawalsStep(withdrawals, member, i);
    }
    assert withdrawals[..|withdrawals|] == withdrawals;
  }

  lemma NothingOwned(member: Id)
    ensures Pick(OwnedBy(member, []), LaterIssue).None?
  {
  }

  // ---- the whole derivation -------------------------------------------------

  /** Sections 3 to 5: the operative proposal, consent, endorsement, the identities
      and the admission verdict. */
  method DeriveAdmission(member: Id, artifacts: seq<Artifact>, b: Buckets, ctx: Context)
    returns (conflicts: seq<Conflict>, endorsers: set<Id>, admissionValid: bool,
             declaration: Declaration, currentIdentity: Identity, admittedIdentity: Identity)
    requires Sorted(b, artifacts, LineageOf(member, artifacts))
    ensures conflicts == ConflictsOf(member, artifacts)
    ensures var operative := Operative(member, artifacts);
            endorsers == if operative.Some? then Endorsers(member, artifacts, operative.value, ctx.established) else {}
    ensures admissionValid == AdmissionValid(member, artifacts, ctx.policy, ctx.founder, ctx.established)
    ensures declaration == DeclarationOf(member, artifacts, ctx.founder)
    ensures currentIdentity == CurrentIdentity(member, artifacts, ctx.founder)
    ensures admittedIdentity == AdmittedIdentity(member, artifacts, ctx.founder)
  {
    hide LineageOf, InLineage, Sponsored, Matching, OwnedBy, EndorsersAmong, IdentityConflicts,
         MultiPartySatisfied, Pick;
    var bootstrapMember := ctx.founder.Some? && ctx.founder.value.constitution.member == member;
    declaration, currentIdentity, admittedIdentity := NO_DECLARATION, NO_IDENTITY, NO_IDENTITY;
    if bootstrapMember {
      declaration := ctx.founder.value;
      currentIdentity := IdentityOf(declaration);
      admittedIdentity := currentIdentity;
    }
    conflicts, endorsers, admissionValid := [], {}, false;
    var proposals := WithoutSelfProposals(member, b.proposals);
    var operative := ChooseProposal(proposals);
    if operative.Some? {
      var proposal := operative.value;
      declaration := proposal.body.declaration;
      conflicts := DisagreeingProposals(proposals, proposal);
      admittedIdentity := IdentityOf(declaration);
      currentIdentity := admittedIdentity;
      var acceptance := FindConsent(member, b.acceptances, proposal);
      if acceptance.Some? {
        currentIdentity := IdentityOf(acceptance.value.body.declaration);
      }
      endorsers := CollectEndorsers(member, b.endorsements, proposal, ctx.established);
      var satisfied := AssessMultiParty(member, proposal.issuer, proposal.issuer in ctx.established,
                                        endorsers, ctx.policy, false);
      admissionValid := satisfied && acceptance.Some?;
    } else if bootstrapMember {
      admissionValid := true;
    }
    var owned := Owned(member, b.reattestations);
    var latest := LastInOrder(owned);
    if latest.Some? {
      currentIdentity := latest.value.body.declaredIdentity;
      declaration := latest.value.body.declaration;
    }
  }

  /** Section 9: the latest own declaration of terms, or what the constitution offers. */
  method DeriveTerms(member: Id, artifacts: seq<Artifact>, b: Buckets, declaration: Declaration,
                     ghost founder: Option<Declaration>) returns (terms: seq<Terms>)
    requires Sorted(b, artifacts, LineageOf(member, artifacts))
    requires declaration == DeclarationOf(member, artifacts, founder)
    ensures terms == TermsOf(member, artifacts, founder)
  {
    hide LineageOf, InLineage, OwnedBy, DeclarationOf, Pick;
    terms := declaration.constitution.delegated;
    if b.delegations != [] {
      var latest := LatestDelegation(member, b.delegations);
      if latest.Some? {
        terms := latest.value.body.delegatedTerms;
      }
    } else {
      NothingOwned(member);
    }
  }

  /** Sections 6 and 7. */
  method DeriveLifecycle(member: Id, artifacts: seq<Artifact>, b: Buckets, admissionValid: bool,
                         declaration: Declaration, currentIdentity: Identity, admittedIdentity: Identity,
                         ctx: Context)
    returns (lifecycle: Lifecycle, current: bool)
    requires Sorted(b, artifacts, LineageOf(member, artifacts))
    requires admissionValid == AdmissionValid(member, artifacts, ctx.policy, ctx.founder, ctx.established)
    requires declaration == DeclarationOf(member, artifacts, ctx.founder)
    requires currentIdentity == CurrentIdentity(member, artifacts, ctx.founder)
    requires admittedIdentity == AdmittedIdentity(member, artifacts, ctx.founder)
    ensures lifecycle == LifecycleOf(member, artifacts, ctx)
    ensures current == ActivationCurrent(member, artifacts, ctx.epoch)
  {
    hide LineageOf, InLineage, OwnedBy, AcceptedFences, Ladder, Suspended, MandatoryCapabilities, Pick,
         ReconsentOnGenerationChange, AdmissionValid, DeclarationOf, CurrentIdentity, AdmittedIdentity;
    var fenced, fenceEpoch := FenceInForce(member, b.fences);
    var activation := NewestActivation(b.activations);
    current := DeclarationIsCurrent(member, activation, b.reattestations, ctx.epoch);
    var same := currentIdentity.constitution == admittedIdentity.constitution;
    var generationChanged := admittedIdentity.generation != 0 &&
                             currentIdentity.generation != admittedIdentity.generation;
    lifecycle := ChooseLifecycle(b, IsFounder(member, ctx.founder), fenced, fenceEpoch, activation, admissionValid,
                                 same, generationChanged, current, declaration, ctx);
  }

  method DeriveMembership(member: Id, artifacts: seq<Artifact>, ctx: Context) returns (d: Derivation)
    ensures d == Derive(member, artifacts, ctx)
  {
    hide LineageOf, InLineage, Operative, AdmissionValid, LifecycleOf, DeclarationOf, CurrentIdentity,
         AdmittedIdentity, ConflictsOf, TermsOf, ActivationCurrent, Withdrawals, Membership.Superseded, Endorsers;
    var lineage := SelectLineage(member, artifacts);
    var b := Collect(artifacts, lineage);
    var conflicts, endorsers, admissionValid, declaration, currentIdentity, admittedIdentity :=
      DeriveAdmission(member, artifacts, b, ctx);
    var lifecycle, current := DeriveLifecycle(member, artifacts, b, admissionValid, declaration,
                                              currentIdentity, admittedIdentity, ctx);
    var superseded := SupersededIncarnations(b.activations, currentIdentity);
    var evidence := EvidenceKnown;
    if conflicts != [] {
      evidence := EvidenceConflicting;
    } else if lifecycle == Absent {
      evidence := EvidenceUnknown;
    } else if lifecycle == Proposed {
      evidence := EvidenceIncomplete;
    } else if ctx.partition == Indeterminate {
      evidence := EvidenceIndeterminate;
    }
    var terms := DeriveTerms(member, artifacts, b, declaration, ctx.founder);
    var withdrawn := CollectWithdrawals(member, b.withdrawals);
    var same := currentIdentity.constitution == admittedIdentity.constitution;
    d := Derivation(lifecycle, lineage, IsFounder(member, ctx.founder), b.admissions != [],
                    b.reattestations != [], declaration, currentIdentity, admittedIdentity,
                    admissionValid && same, current, endorsers, terms, withdrawn, conflicts, superseded,
                    evidence);
  }
}
