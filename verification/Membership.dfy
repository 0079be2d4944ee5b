// What one member's evidence means. These functions say which artefact each
// step of the derivation relies on and what lifecycle follows; the method that
// computes the same thing by successive loops is in MembershipDerivation.dfy.
module Membership {
  import opened Sequences
  import opened Scopes
  import opened Policies
  import opened Identities
  import opened Evidence

  datatype Lifecycle = Absent | Proposed | Admitted | Active | Degraded | Fenced | Leaving | Retired
  datatype PartitionState = Connected | Split | Indeterminate | Empty
  datatype EvidenceState = EvidenceUnknown | EvidenceKnown | EvidenceIncomplete
                         | EvidenceIndeterminate | EvidenceConflicting

  datatype ConflictKind = OverlappingExclusive | AmbiguousPrecedence | ModeMismatch
                        | DuplicateEvidence | ConflictingIdentity | PrecedenceUnsatisfiable
  datatype Conflict = Conflict(grant: Grant, kind: ConflictKind, claimants: set<Id>)

  const NO_GRANT := Grant("", Observe)

  /** `compatible(required, offered)` is the capability evaluation. */
  datatype Context = Context(
    epoch: nat, policy: Policy, partition: PartitionState, reconciling: bool,
    established: set<Id>, founder: Option<Declaration>,
    compatible: (set<nat>, set<nat>) -> bool)

  datatype Derivation = Derivation(
    lifecycle: Lifecycle,
    lineage: nat,
    bootstrap: bool,
    hasAdmission: bool,
    hasReattestation: bool,
    declaration: Declaration,
    currentIdentity: Identity,
    admittedIdentity: Identity,
    activationMatches: bool,
    activationCurrent: bool,
    endorsers: set<Id>,
    delegatedTerms: seq<Terms>,
    withdrawn: set<Grant>,
    conflicts: seq<Conflict>,
    superseded: set<nat>,
    evidence: EvidenceState)

  predicate HoldsFederationAuthority(lifecycle: Lifecycle) {
    lifecycle == Active || lifecycle == Degraded
  }

  predicate IsEstablished(lifecycle: Lifecycle) {
    lifecycle == Active || lifecycle == Degraded || lifecycle == Admitted
  }

  // ---- the current lineage --------------------------------------------------

  predicate ClosedBySelf(member: Id, artifacts: seq<Artifact>, lineage: nat) {
    exists a | a in artifacts :: a.kind == MembershipLeave && a.issuer == member && a.body.lineage == lineage
  }

  predicate Present(artifacts: seq<Artifact>, lineage: nat) {
    exists a | a in artifacts :: a.body.lineage == lineage
  }

  predicate Advances(member: Id, artifacts: seq<Artifact>, lineage: nat) {
    ClosedBySelf(member, artifacts, lineage) && Present(artifacts, lineage + 1)
  }

  ghost predicate LineageReachable(member: Id, artifacts: seq<Artifact>, lineage: nat) {
    forall l: nat | l < lineage :: Advances(member, artifacts, l)
  }

  /** Every slot up to here was closed by the member itself and has a successor,
      and this slot is where that stops. */
  ghost predicate IsLineage(member: Id, artifacts: seq<Artifact>, lineage: nat) {
    LineageReachable(member, artifacts, lineage) && !Advances(member, artifacts, lineage)
  }

  /** Pigeonhole: each lineage passed needs an artefact of its own. */
  lemma ReachableLineageIsBounded(member: Id, artifacts: seq<Artifact>, lineage: nat)
    requires LineageReachable(member, artifacts, lineage)
    ensures lineage <= |artifacts|
  {
    var lineages := seq(|artifacts|, i requires 0 <= i < |artifacts| => artifacts[i].body.lineage);
    var passed := OneTo(lineage);
    forall l | l in passed ensures l in lineages {
      assert Advances(member, artifacts, l - 1);
      var a :| a in artifacts && a.body.lineage == l;
      var i :| 0 <= i < |artifacts| && artifacts[i] == a;
      assert lineages[i] == l;
    }
    SetWithinSequence(passed, lineages);
  }

  function Climb(member: Id, artifacts: seq<Artifact>, lineage: nat): (r: nat)
    requires LineageReachable(member, artifacts, lineage)
    ensures IsLineage(member, artifacts, r)
    decreases |artifacts| + 1 - lineage
  {
    if Advances(member, artifacts, lineage) then
      ReachableLineageIsBounded(member, artifacts, lineage + 1);
      Climb(member, artifacts, lineage + 1)
    else lineage
  }

  function LineageOf(member: Id, artifacts: seq<Artifact>): (r: nat)
    ensures IsLineage(member, artifacts, r)
  {
    Climb(member, artifacts, 0)
  }

  lemma LineageIsUnique(member: Id, artifacts: seq<Artifact>, a: nat, b: nat)
    requires IsLineage(member, artifacts, a) && IsLineage(member, artifacts, b)
    ensures a == b
  {
  }

  /** The selected lineage is the largest one reachable from zero. */
  lemma LineageIsLargestReachable(member: Id, artifacts: seq<Artifact>, lineage: nat)
    ensures lineage <= LineageOf(member, artifacts) <==> LineageReachable(member, artifacts, lineage)
  {
    assert !Advances(member, artifacts, LineageOf(member, artifacts));
  }

  /** More evidence never moves a member back to an earlier lineage. */
  lemma MoreEvidenceNeverLowersLineage(member: Id, artifacts: seq<Artifact>, more: seq<Artifact>)
    requires forall a | a in artifacts :: a in more
    ensures LineageOf(member, artifacts) <= LineageOf(member, more)
  {
    var lineage := LineageOf(member, artifacts);
    forall l: nat | l < lineage ensures Advances(member, more, l) {
      assert Advances(member, artifacts, l);
    }
    LineageIsLargestReachable(member, more, lineage);
  }

  // ---- which artefact each step relies on -----------------------------------

  function InLineage(artifacts: seq<Artifact>, lineage: nat, kind: Kind): seq<Artifact> {
    Filter(artifacts, (a: Artifact) => a.kind == kind && a.body.lineage == lineage)
  }

  /** Proposals by somebody else; a self-proposal never admits anyone. */
  function Sponsored(member: Id, proposals: seq<Artifact>): seq<Artifact> {
    Filter(proposals, (a: Artifact) => a.issuer != member)
  }

  function OwnedBy(member: Id, artifacts: seq<Artifact>): seq<Artifact> {
    Filter(artifacts, (a: Artifact) => a.issuer == member)
  }

  predicate HigherGeneration(a: Artifact, b: Artifact) {
    var x, y := a.body.declaration.constitution.generation, b.body.declaration.constitution.generation;
    x > y || (x == y && a.evidence < b.evidence)
  }

  predicate LowerEvidence(a: Artifact, b: Artifact) {
    a.evidence < b.evidence
  }

  predicate LaterAttestation(a: Artifact, b: Artifact) {
    || a.issuerEpoch > b.issuerEpoch
    || (a.issuerEpoch == b.issuerEpoch &&
        (|| a.body.declaration.incarnation > b.body.declaration.incarnation
         || (a.body.declaration.incarnation == b.body.declaration.incarnation && a.evidence > b.evidence)))
  }

  predicate LaterEpoch(a: Artifact, b: Artifact) {
    a.body.epoch > b.body.epoch || (a.body.epoch == b.body.epoch && a.evidence < b.evidence)
  }

  predicate LaterIssue(a: Artifact, b: Artifact) {
    a.issuerEpoch > b.issuerEpoch || (a.issuerEpoch == b.issuerEpoch && a.evidence < b.evidence)
  }

  predicate HigherFenceEpoch(a: Artifact, b: Artifact) {
    a.body.epoch > b.body.epoch
  }

  /** The proposal a member is admitted under. */
  function Operative(member: Id, artifacts: seq<Artifact>): (r: Option<Artifact>) {
    var proposals := InLineage(artifacts, LineageOf(member, artifacts), MembershipProposal);
    Pick(Sponsored(member, proposals), HigherGeneration)
  }

  function ProposedConstitution(proposal: Artifact): Digest {
    DigestOf(proposal.body.declaration.constitution)
  }

  predicate Echoes(a: Artifact, proposal: Artifact) {
    a.body.declaredIdentity.constitution == ProposedConstitution(proposal)
  }

  /** The candidate's own acceptance of exactly the proposed constitution. */
  function Matching(member: Id, acceptances: seq<Artifact>, proposal: Artifact): seq<Artifact> {
    Filter(acceptances, (a: Artifact) => a.issuer == member && Echoes(a, proposal))
  }

  function Consent(member: Id, artifacts: seq<Artifact>, proposal: Artifact): Option<Artifact> {
    var acceptances := InLineage(artifacts, LineageOf(member, artifacts), MembershipAcceptance);
    Pick(Matching(member, acceptances, proposal), LowerEvidence)
  }

  predicate Endorses(a: Artifact, member: Id, proposal: Artifact, established: set<Id>) {
    a.issuer != member && a.issuer != proposal.issuer && Echoes(a, proposal) && a.issuer in established
  }

  function EndorsersAmong(endorsements: seq<Artifact>, member: Id, proposal: Artifact,
                          established: set<Id>): set<Id> {
    set a | a in endorsements && Endorses(a, member, proposal, established) :: a.issuer
  }

  function Endorsers(member: Id, artifacts: seq<Artifact>, proposal: Artifact,
                     established: set<Id>): set<Id> {
    EndorsersAmong(InLineage(artifacts, LineageOf(member, artifacts), MembershipEndorsement),
                   member, proposal, established)
  }

  function Attestations(member: Id, artifacts: seq<Artifact>): seq<Artifact> {
    OwnedBy(member, InLineage(artifacts, LineageOf(member, artifacts), MemberReattestation))
  }

  function LatestAttestation(member: Id, artifacts: seq<Artifact>): Option<Artifact> {
    Pick(Attestations(member, artifacts), LaterAttestation)
  }

  function Activation(member: Id, artifacts: seq<Artifact>): Option<Artifact> {
    Pick(InLineage(artifacts, LineageOf(member, artifacts), MembershipActivation), LaterEpoch)
  }

  /** A fence counts when the coordinator or the member itself issued it. */
  function AcceptedFences(member: Id, fences: seq<Artifact>): seq<Artifact> {
    Filter(fences, (a: Artifact) => a.issuer == member || a.issuer == NIL)
  }

  function Fence(member: Id, artifacts: seq<Artifact>): Option<Artifact> {
    var fences := InLineage(artifacts, LineageOf(member, artifacts), MembershipFence);
    Pick(AcceptedFences(member, fences), HigherFenceEpoch)
  }

  predicate Has(member: Id, artifacts: seq<Artifact>, kind: Kind) {
    InLineage(artifacts, LineageOf(member, artifacts), kind) != []
  }

  // ---- multi-party admission ------------------------------------------------

  function Parties(candidate: Id, proposer: Id, endorsers: set<Id>): set<Id> {
    ({proposer, candidate} + endorsers) - {NIL}
  }

  function CountedEndorsers(candidate: Id, proposer: Id, endorsers: set<Id>): set<Id> {
    endorsers - {NIL, candidate, proposer}
  }

  /** src/membership.cpp, assess_multi_party for a member that is not bootstrapped. */
  predicate MultiPartySatisfied(candidate: Id, proposer: Id, proposerActive: bool,
                                endorsers: set<Id>, policy: Policy) {
    && proposer != candidate
    && proposerActive
    && |Parties(candidate, proposer, endorsers)| >= PartiesRequired(policy)
    && |CountedEndorsers(candidate, proposer, endorsers)| >= EndorsementsRequired(policy)
  }

  predicate IsFounder(member: Id, founder: Option<Declaration>) {
    founder.Some? && founder.value.constitution.member == member
  }

  /** A sponsored proposal replaces the bootstrap branch, even for the founder. */
  predicate AdmissionValid(member: Id, artifacts: seq<Artifact>, policy: Policy,
                           founder: Option<Declaration>, established: set<Id>) {
    var operative := Operative(member, artifacts);
    if operative.Some? then AdmittedUnder(operative.value, member, artifacts, policy, established)
    else IsFounder(member, founder)
  }

  predicate AdmittedUnder(p: Artifact, member: Id, artifacts: seq<Artifact>, policy: Policy,
                          established: set<Id>) {
    && MultiPartySatisfied(member, p.issuer, p.issuer in established,
                           Endorsers(member, artifacts, p, established), policy)
    && Consent(member, artifacts, p).Some?
  }

  // ---- identities -----------------------------------------------------------

  function AdmittedIdentity(member: Id, artifacts: seq<Artifact>, founder: Option<Declaration>): Identity {
    var operative := Operative(member, artifacts);
    if operative.Some? then IdentityOf(operative.value.body.declaration)
    else if IsFounder(member, founder) then IdentityOf(founder.value)
    else NO_IDENTITY
  }

  function CurrentIdentity(member: Id, artifacts: seq<Artifact>, founder: Option<Declaration>): Identity {
    var attestation := LatestAttestation(member, artifacts);
    var operative := Operative(member, artifacts);
    if attestation.Some? then attestation.value.body.declaredIdentity
    else if operative.Some? && Consent(member, artifacts, operative.value).Some? then
      IdentityOf(Consent(member, artifacts, operative.value).value.body.declaration)
    else AdmittedIdentity(member, artifacts, founder)
  }

  function DeclarationOf(member: Id, artifacts: seq<Artifact>, founder: Option<Declaration>): Declaration {
    var attestation := LatestAttestation(member, artifacts);
    var operative := Operative(member, artifacts);
    if attestation.Some? then attestation.value.body.declaration
    else if operative.Some? then operative.value.body.declaration
    else if IsFounder(member, founder) then founder.value
    else NO_DECLARATION
  }

  predicate SameConstitution(member: Id, artifacts: seq<Artifact>, founder: Option<Declaration>) {
    CurrentIdentity(member, artifacts, founder).constitution ==
    AdmittedIdentity(member, artifacts, founder).constitution
  }

  predicate GenerationChanged(member: Id, artifacts: seq<Artifact>, founder: Option<Declaration>) {
    var admitted := AdmittedIdentity(member, artifacts, founder).generation;
    admitted != 0 && CurrentIdentity(member, artifacts, founder).generation != admitted
  }

  /** Currency is read from the own re-attestation that comes last in the list,
      and only without one from the activation record. */
  predicate ActivationCurrent(member: Id, artifacts: seq<Artifact>, epoch: nat) {
    var own := Attestations(member, artifacts);
    var activation := Activation(member, artifacts);
    if own != [] then own[|own| - 1].body.epoch >= epoch
    else activation.Some? ==> activation.value.body.epoch == epoch
  }

  // ---- lifecycle ------------------------------------------------------------

  predicate FencedByOrder(member: Id, artifacts: seq<Artifact>) {
    var fence, activation := Fence(member, artifacts), Activation(member, artifacts);
    fence.Some? && (activation.None? || activation.value.body.epoch <= fence.value.body.epoch)
  }

  predicate Suspended(ctx: Context) {
    || (ctx.reconciling && SuspendsWhileReconciling(ctx.policy))
    || ((ctx.partition == Split || ctx.partition == Indeterminate) && SuspendsOnPartition(ctx.policy))
  }

  predicate CapabilityGap(member: Id, artifacts: seq<Artifact>, ctx: Context) {
    var required := MandatoryCapabilities(ctx.policy);
    required != {} &&
    !ctx.compatible(required, DeclarationOf(member, artifacts, ctx.founder).constitution.capabilities)
  }

  /** The ladder of src/membership.cpp, section 7: the first condition that applies
      decides. */
  function Ladder(retired: bool, left: bool, proposed: bool, founder: bool, fenced: bool,
                  admitted: bool, activated: bool, sameConstitution: bool, mustReconsent: bool,
                  current: bool, impaired: bool): Lifecycle {
    if retired then Retired
    else if left then Leaving
    else if !proposed && !founder then Absent
    else if fenced then Fenced
    else if !admitted then Proposed
    else if !activated then Admitted
    else if !sameConstitution then (if mustReconsent then Fenced else Admitted)
    else if !current || impaired then Degraded
    else Active
  }

  predicate MustReconsent(member: Id, artifacts: seq<Artifact>, policy: Policy, founder: Option<Declaration>) {
    GenerationChanged(member, artifacts, founder) && ReconsentOnGenerationChange(policy)
  }

  function LifecycleOf(member: Id, artifacts: seq<Artifact>, ctx: Context): Lifecycle {
    Ladder(Has(member, artifacts, MembershipRetirement),
           Has(member, artifacts, MembershipLeave),
           Has(member, artifacts, MembershipProposal),
           IsFounder(member, ctx.founder),
           FencedByOrder(member, artifacts),
           AdmissionValid(member, artifacts, ctx.policy, ctx.founder, ctx.established),
           Activation(member, artifacts).Some?,
           SameConstitution(member, artifacts, ctx.founder),
           MustReconsent(member, artifacts, ctx.policy, ctx.founder),
           ActivationCurrent(member, artifacts, ctx.epoch),
           Suspended(ctx) || CapabilityGap(member, artifacts, ctx))
  }

  // ---- delegation -----------------------------------------------------------

  function TermsOf(member: Id, artifacts: seq<Artifact>, founder: Option<Declaration>): seq<Terms> {
    var declared := InLineage(artifacts, LineageOf(member, artifacts), DelegationDeclaration);
    var latest := Pick(OwnedBy(member, declared), LaterIssue);
    if latest.Some? then latest.value.body.delegatedTerms
    else DeclarationOf(member, artifacts, founder).constitution.delegated
  }

  function Withdrawals(withdrawals: seq<Artifact>, member: Id): set<Grant> {
    set a, g | a in withdrawals && a.issuer == member && g in a.body.withdrawnGrants :: g
  }

  function WithdrawnBy(member: Id, artifacts: seq<Artifact>): set<Grant> {
    Withdrawals(InLineage(artifacts, LineageOf(member, artifacts), DelegationWithdrawal), member)
  }

  function Superseded(activations: seq<Artifact>, current: Identity): set<nat> {
    set a | a in activations && a.body.declaredIdentity.incarnation != current.incarnation
      :: a.body.declaredIdentity.incarnation
  }

  // ---- conflicts between proposals ------------------------------------------

  predicate Disagrees(a: Artifact, chosen: Artifact) {
    ProposedConstitution(a) != ProposedConstitution(chosen)
  }

  function IdentityConflicts(proposals: seq<Artifact>, chosen: Artifact): seq<Conflict> {
    if proposals == [] then []
    else
      var last := proposals[|proposals| - 1];
      IdentityConflicts(proposals[..|proposals| - 1], chosen) +
      (if Disagrees(last, chosen)
       then [Conflict(NO_GRANT, ConflictingIdentity, {chosen.issuer, last.issuer})] else [])
  }

  function ConflictsOf(member: Id, artifacts: seq<Artifact>): seq<Conflict> {
    var proposals := InLineage(artifacts, LineageOf(member, artifacts), MembershipProposal);
    var operative := Operative(member, artifacts);
    if operative.None? then [] else IdentityConflicts(Sponsored(member, proposals), operative.value)
  }

  function EvidenceOf(conflicts: seq<Conflict>, lifecycle: Lifecycle, partition: PartitionState): EvidenceState {
    if conflicts != [] then EvidenceConflicting
    else if lifecycle == Absent then EvidenceUnknown
    else if lifecycle == Proposed then EvidenceIncomplete
    else if partition == Indeterminate then EvidenceIndeterminate
    else EvidenceKnown
  }

  /** What src/membership.cpp, derive_membership, returns. */
  function Derive(member: Id, artifacts: seq<Artifact>, ctx: Context): Derivation {
    var lineage := LineageOf(member, artifacts);
    var operative := Operative(member, artifacts);
    var current := CurrentIdentity(member, artifacts, ctx.founder);
    var lifecycle := LifecycleOf(member, artifacts, ctx);
    Derivation(
      lifecycle,
      lineage,
      IsFounder(member, ctx.founder),
      Has(member, artifacts, MembershipAdmission),
      Has(member, artifacts, MemberReattestation),
      DeclarationOf(member, artifacts, ctx.founder),
      current,
      AdmittedIdentity(member, artifacts, ctx.founder),
      AdmissionValid(member, artifacts, ctx.policy, ctx.founder, ctx.established) && SameConstitution(member, artifacts, ctx.founder),
      ActivationCurrent(member, artifacts, ctx.epoch),
      if operative.Some? then Endorsers(member, artifacts, operative.value, ctx.established) else {},
      TermsOf(member, artifacts, ctx.founder),
      WithdrawnBy(member, artifacts),
      ConflictsOf(member, artifacts),
      Superseded(InLineage(artifacts, lineage, MembershipActivation), current),
      EvidenceOf(ConflictsOf(member, artifacts), lifecycle, ctx.partition))
  }

  // ---- what the choices mean ------------------------------------------------

  lemma ComparatorsAreOrders()
    ensures StrictWeakOrder(HigherGeneration)
    ensures StrictWeakOrder(LowerEvidence)
    ensures StrictWeakOrder(LaterAttestation)
    ensures StrictWeakOrder(LaterEpoch)
    ensures StrictWeakOrder(LaterIssue)
    ensures StrictWeakOrder(HigherFenceEpoch)
  {
  }

  /** The operative proposal is sponsored, belongs to the current lineage, and no
      other sponsored proposal there declares a higher generation. */
  lemma OperativeProposalIsNewestSponsored(member: Id, artifacts: seq<Artifact>)
    requires Operative(member, artifacts).Some?
    ensures var p := Operative(member, artifacts).value;
            && p in artifacts && p.kind == MembershipProposal && p.issuer != member
            && p.body.lineage == LineageOf(member, artifacts)
            && forall q | q in artifacts && q.kind == MembershipProposal && q.issuer != member &&
                          q.body.lineage == p.body.lineage ::
                 q.body.declaration.constitution.generation <= p.body.declaration.constitution.generation
  {
    ComparatorsAreOrders();
    var proposals := InLineage(artifacts, LineageOf(member, artifacts), MembershipProposal);
    PickIsMaximal(Sponsored(member, proposals), HigherGeneration);
  }

  /** A fence is lifted only by an activation at a strictly later epoch than every
      fence the coordinator or the member itself put in force. */
  lemma FenceIsSticky(member: Id, artifacts: seq<Artifact>, fence: Artifact)
    requires fence in artifacts && fence.kind == MembershipFence
    requires fence.body.lineage == LineageOf(member, artifacts)
    requires fence.issuer == member || fence.issuer == NIL
    ensures FencedByOrder(member, artifacts) ||
            exists a | a in artifacts :: a.kind == MembershipActivation &&
              a.body.lineage == fence.body.lineage && a.body.epoch > fence.body.epoch
  {
    ComparatorsAreOrders();
    var fences := InLineage(artifacts, LineageOf(member, artifacts), MembershipFence);
    PickIsMaximal(AcceptedFences(member, fences), HigherFenceEpoch);
    if !FencedByOrder(member, artifacts) {
      var a := Activation(member, artifacts).value;
      assert a in artifacts && a.body.epoch > Fence(member, artifacts).value.body.epoch;
    }
  }

  // ---- standing -------------------------------------------------------------

  /** What membership standing depends on. The epoch, the partition and the
      reconciliation flag do not occur in it. */
  predicate Standing(member: Id, artifacts: seq<Artifact>, policy: Policy,
                     founder: Option<Declaration>, established: set<Id>) {
    && !Has(member, artifacts, MembershipRetirement)
    && !Has(member, artifacts, MembershipLeave)
    && (Has(member, artifacts, MembershipProposal) || IsFounder(member, founder))
    && !FencedByOrder(member, artifacts)
    && (Activation(member, artifacts).Some? ==>
          SameConstitution(member, artifacts, founder) || !MustReconsent(member, artifacts, policy, founder))
    && AdmissionValid(member, artifacts, policy, founder, established)
  }

  lemma EstablishedIffStanding(member: Id, artifacts: seq<Artifact>, ctx: Context)
    ensures IsEstablished(LifecycleOf(member, artifacts, ctx)) <==>
            Standing(member, artifacts, ctx.policy, ctx.founder, ctx.established)
  {
    hide Has, IsFounder, FencedByOrder, AdmissionValid, Activation, SameConstitution, MustReconsent,
         ActivationCurrent, Suspended, CapabilityGap;
  }

  /** Admission is monotone in the established set. */
  lemma StandingIsMonotone(member: Id, artifacts: seq<Artifact>, policy: Policy,
                           founder: Option<Declaration>, fewer: set<Id>, more: set<Id>)
    requires fewer <= more
    requires Standing(member, artifacts, policy, founder, fewer)
    ensures Standing(member, artifacts, policy, founder, more)
  {
    hide Has, IsFounder, FencedByOrder, Activation, SameConstitution, MustReconsent, Operative, Consent;
    if Operative(member, artifacts).Some? {
      var p := Operative(member, artifacts).value;
      var few, many := Endorsers(member, artifacts, p, fewer), Endorsers(member, artifacts, p, more);
      assert few <= many;
      SubsetSize(Parties(member, p.issuer, few), Parties(member, p.issuer, many));
      SubsetSize(CountedEndorsers(member, p.issuer, few), CountedEndorsers(member, p.issuer, many));
    }
  }

  lemma SubsetSize<T>(a: set<T>, b: set<T>)
    requires a <= b
    ensures |a| <= |b|
  {
    assert b == a + (b - a);
  }

  /** The partition and the reconciliation flag only ever turn Active into Degraded. */
  lemma SuspensionOnlyDegrades(member: Id, artifacts: seq<Artifact>, ctx: Context,
                               partition: PartitionState, reconciling: bool)
    ensures var before := LifecycleOf(member, artifacts, ctx.(partition := Connected, reconciling := false));
            var after := LifecycleOf(member, artifacts, ctx.(partition := partition, reconciling := reconciling));
            after == before || (before == Active && after == Degraded)
  {
    hide Has, IsFounder, FencedByOrder, AdmissionValid, Activation, SameConstitution, MustReconsent,
         ActivationCurrent, DeclarationOf, MandatoryCapabilities, SuspendsOnPartition, SuspendsWhileReconciling;
  }

  /** What stands behind every admission that rests on a sponsored proposal: a
      different established sponsor, the member's own consent to exactly the
      proposed constitution, at least two parties, and the endorsements of as many
      established third parties as the policy asks for. */
  lemma AdmissionEvidence(member: Id, artifacts: seq<Artifact>, policy: Policy, established: set<Id>, p: Artifact)
    returns (consent: Artifact, parties: set<Id>, endorsers: set<Id>)
    requires Operative(member, artifacts) == Some(p)
    requires AdmittedUnder(p, member, artifacts, policy, established)
    ensures p.issuer != member && p.issuer in established
    ensures consent in artifacts && consent.kind == MembershipAcceptance && consent.issuer == member
    ensures consent.body.lineage == LineageOf(member, artifacts) && Echoes(consent, p)
    ensures |parties| >= PartiesRequired(policy) >= 2 && NIL !in parties
    ensures forall x | x in parties :: x == member || x in established
    ensures |endorsers| >= EndorsementsRequired(policy) && endorsers <= established
    ensures member !in endorsers && p.issuer !in endorsers
    ensures forall e | e in endorsers :: EndorsedBy(e, artifacts, p)
  {
    hide Operative, Pick, Consent, Endorsers, LineageOf, Echoes, EndorsedBy, PartiesRequired, EndorsementsRequired;
    OperativeIsSponsored(member, artifacts, p);
    ConsentIsOwn(member, artifacts, p);
    EndorsersVouch(member, artifacts, p, established);
    endorsers := CountedEndorsers(member, p.issuer, Endorsers(member, artifacts, p, established));
    parties := Parties(member, p.issuer, Endorsers(member, artifacts, p, established));
    consent := Consent(member, artifacts, p).value;
  }

  lemma OperativeIsSponsored(member: Id, artifacts: seq<Artifact>, p: Artifact)
    requires Operative(member, artifacts) == Some(p)
    ensures p.issuer != member
  {
  }

  lemma ConsentIsOwn(member: Id, artifacts: seq<Artifact>, p: Artifact)
    requires Consent(member, artifacts, p).Some?
    ensures var consent := Consent(member, artifacts, p).value;
            && consent in artifacts && consent.kind == MembershipAcceptance && consent.issuer == member
            && consent.body.lineage == LineageOf(member, artifacts) && Echoes(consent, p)
  {
    hide LineageOf, Echoes;
  }

  lemma EndorsersVouch(member: Id, artifacts: seq<Artifact>, p: Artifact, established: set<Id>)
    ensures forall e | e in Endorsers(member, artifacts, p, established) ::
              e in established && EndorsedBy(e, artifacts, p)
  {
    hide LineageOf, Echoes;
  }

  ghost predicate EndorsedBy(endorser: Id, artifacts: seq<Artifact>, p: Artifact) {
    exists a | a in artifacts :: a.kind == MembershipEndorsement && a.issuer == endorser && Echoes(a, p)
  }

  // ---- re-attestation -------------------------------------------------------

  predicate LatestListedNamesHighestEpoch(own: seq<Artifact>) {
    forall a | a in own :: a.body.epoch <= own[|own| - 1].body.epoch
  }

  /** That re-attesting at the current epoch makes a declaration current, as
      src/membership.cpp:578-583 puts it, holds at every epoch exactly when the own
      re-attestation with the highest evidence identifier also names the highest epoch:
      the scan lets each later artefact in evidence order overrule the earlier ones. */
  lemma ReattestingKeepsCurrentIff(member: Id, artifacts: seq<Artifact>)
    ensures (forall epoch: nat ::
              (exists a | a in Attestations(member, artifacts) :: a.body.epoch >= epoch) ==>
                ActivationCurrent(member, artifacts, epoch)) <==>
            LatestListedNamesHighestEpoch(Attestations(member, artifacts))
  {
    hide Attestations, Activation;
    var own := Attestations(member, artifacts);
    if !LatestListedNamesHighestEpoch(own) {
      var a :| a in own && a.body.epoch > own[|own| - 1].body.epoch;
      assert !ActivationCurrent(member, artifacts, a.body.epoch);
    }
  }

  ghost function AttestationAt(evidence: Id, member: Id, epoch: nat): Artifact {
    Artifact(evidence, MemberReattestation, 1, member, member, epoch,
             Body(NO_DECLARATION, NO_IDENTITY, NO_DECLARATION, Policy(1, [], 0), 0, epoch, 0, [], [], OtherReason, 0, 0))
  }

  /** The promise fails: a member attests at epoch three and again at epoch five, the
      second time under a lower evidence identifier, and is not current at five. */
  lemma ReattestationCanBeOverlooked()
    ensures var five, three := AttestationAt(1, 7, 5), AttestationAt(2, 7, 3);
            && five in Attestations(7, [five, three]) && five.body.epoch == 5
            && !ActivationCurrent(7, [five, three], 5)
  {
    var five, three := AttestationAt(1, 7, 5), AttestationAt(2, 7, 3);
    var both := [five, three];
    assert !Advances(7, both, 0);
    assert LineageOf(7, both) == 0;
    var kept := InLineage(both, 0, MemberReattestation);
    TwoKept(both, (a: Artifact) => a.kind == MemberReattestation && a.body.lineage == 0);
    TwoKept(both, (a: Artifact) => a.issuer == 7);
    assert Attestations(7, both) == both;
  }

  lemma TwoKept(s: seq<Artifact>, p: Artifact -> bool)
    requires |s| == 2 && p(s[0]) && p(s[1])
    ensures Filter(s, p) == s
  {
    FilterStep(s, p, 0);
    FilterStep(s, p, 1);
    assert s[..2] == s && s[..1] == [s[0]] && s[..0] == [];
  }
}
