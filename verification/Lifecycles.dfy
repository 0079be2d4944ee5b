// What every lifecycle, identity and set of terms of a member takes, by the fields of the
// artefacts about it: which artefact is relied on among several, and the exact condition
// of each of the eight lifecycles.
module Lifecycles {
  import opened Sequences
  import opened Scopes
  import opened Policies
  import opened Identities
  import opened Evidence
  import opened Membership
  import opened State
  import opened StateProperties
  import opened Provenance
  import Standing

  // ---- the artefact relied on -----------------------------------------------

  /** A scan picks exactly the element that beats all others, where any two differ. */
  lemma PickedExactly(s: seq<Artifact>, beats: (Artifact, Artifact) -> bool, a: Artifact)
    requires StrictWeakOrder(beats)
    requires forall x, y | x in s && y in s && x != y :: beats(x, y) || beats(y, x)
    ensures Pick(s, beats) == Some(a) <==> a in s && forall b | b in s && b != a :: beats(a, b)
  {
    if s != [] {
      PickIsMaximal(s, beats);
      hide Pick;
      var best := Pick(s, beats).value;
      assert best in s && forall b | b in s :: !beats(b, best);
    }
  }

  /** An artefact of a kind in the member's current lineage. */
  predicate Filed(member: Id, artifacts: seq<Artifact>, kind: Kind, a: Artifact) {
    a in artifacts && a.kind == kind && a.body.lineage == LineageOf(member, artifacts)
  }

  ghost predicate AnyFiled(member: Id, artifacts: seq<Artifact>, kind: Kind) {
    exists a | a in artifacts :: Filed(member, artifacts, kind, a)
  }

  lemma HasExactly(member: Id, artifacts: seq<Artifact>, kind: Kind)
    ensures Has(member, artifacts, kind) <==> AnyFiled(member, artifacts, kind)
  {
    hide LineageOf;
    var kept := InLineage(artifacts, LineageOf(member, artifacts), kind);
    if kept != [] {
      assert kept[0] in kept;
    }
    if a :| a in artifacts && Filed(member, artifacts, kind, a) {
      assert a in kept;
    }
  }

  /** A proposal of the lineage by somebody else. */
  predicate Proposes(member: Id, artifacts: seq<Artifact>, p: Artifact) {
    Filed(member, artifacts, MembershipProposal, p) && p.issuer != member
  }

  function GenerationProposed(p: Artifact): nat {
    p.body.declaration.constitution.generation
  }

  /** It declares the highest generation, and has the lowest identifier of those that do. */
  ghost predicate NewestProposal(member: Id, artifacts: seq<Artifact>, p: Artifact) {
    Proposes(member, artifacts, p) &&
    forall q | q in artifacts && Proposes(member, artifacts, q) && q != p ::
      || GenerationProposed(q) < GenerationProposed(p)
      || (GenerationProposed(q) == GenerationProposed(p) && p.evidence < q.evidence)
  }

  lemma OperativeExactly(member: Id, artifacts: seq<Artifact>, p: Artifact)
    requires ByEvidence(artifacts)
    ensures Operative(member, artifacts) == Some(p) <==> NewestProposal(member, artifacts, p)
  {
    ComparatorsAreOrders();
    hide LineageOf, Pick;
    var sponsored := Sponsored(member, InLineage(artifacts, LineageOf(member, artifacts), MembershipProposal));
    assert forall q :: q in sponsored <==> q in artifacts && Proposes(member, artifacts, q);
    Distinct(artifacts);
    hide ByEvidence, Sponsored, InLineage, Proposes;
    PickedExactly(sponsored, HigherGeneration, p);
  }

  lemma NothingProposed(member: Id, artifacts: seq<Artifact>)
    ensures Operative(member, artifacts).None? <==> forall p | p in artifacts :: !Proposes(member, artifacts, p)
  {
    hide LineageOf, Pick;
    var sponsored := Sponsored(member, InLineage(artifacts, LineageOf(member, artifacts), MembershipProposal));
    assert forall q :: q in sponsored <==> q in artifacts && Proposes(member, artifacts, q);
    if sponsored != [] {
      assert sponsored[0] in sponsored;
    }
  }

  lemma Distinct(artifacts: seq<Artifact>)
    requires ByEvidence(artifacts)
    ensures forall a, b | a in artifacts && b in artifacts && a != b :: a.evidence != b.evidence
  {
  }

  predicate OwnAttestation(member: Id, artifacts: seq<Artifact>, a: Artifact) {
    Filed(member, artifacts, MemberReattestation, a) && a.issuer == member
  }

  /** The member's own re-attestation issued at the latest epoch, of those for the highest
      incarnation, of those with the highest identifier. */
  ghost predicate NewestAttestation(member: Id, artifacts: seq<Artifact>, a: Artifact) {
    OwnAttestation(member, artifacts, a) &&
    forall b | b in artifacts && OwnAttestation(member, artifacts, b) && b != a ::
      || b.issuerEpoch < a.issuerEpoch
      || (b.issuerEpoch == a.issuerEpoch && b.body.declaration.incarnation < a.body.declaration.incarnation)
      || (b.issuerEpoch == a.issuerEpoch && b.body.declaration.incarnation == a.body.declaration.incarnation &&
          b.evidence < a.evidence)
  }

  lemma OwnFiled(member: Id, artifacts: seq<Artifact>, kind: Kind, a: Artifact)
    ensures a in OwnedBy(member, InLineage(artifacts, LineageOf(member, artifacts), kind)) <==>
            Filed(member, artifacts, kind, a) && a.issuer == member
  {
    hide LineageOf;
  }

  lemma LatestAttestationExactly(member: Id, artifacts: seq<Artifact>, a: Artifact)
    requires ByEvidence(artifacts)
    ensures LatestAttestation(member, artifacts) == Some(a) <==> NewestAttestation(member, artifacts, a)
  {
    ComparatorsAreOrders();
    Distinct(artifacts);
    forall b ensures b in Attestations(member, artifacts) <==>
                     Filed(member, artifacts, MemberReattestation, b) && b.issuer == member
    {
      OwnFiled(member, artifacts, MemberReattestation, b);
    }
    hide ByEvidence, Attestations, Pick, LineageOf;
    PickedExactly(Attestations(member, artifacts), LaterAttestation, a);
  }

  /** The activation naming the highest epoch, of those with the lowest identifier. */
  ghost predicate LastActivation(member: Id, artifacts: seq<Artifact>, a: Artifact) {
    Filed(member, artifacts, MembershipActivation, a) &&
    forall b | b in artifacts && Filed(member, artifacts, MembershipActivation, b) && b != a ::
      b.body.epoch < a.body.epoch || (b.body.epoch == a.body.epoch && a.evidence < b.evidence)
  }

  lemma ActivationExactly(member: Id, artifacts: seq<Artifact>, a: Artifact)
    requires ByEvidence(artifacts)
    ensures Activation(member, artifacts) == Some(a) <==> LastActivation(member, artifacts, a)
  {
    ComparatorsAreOrders();
    Distinct(artifacts);
    hide ByEvidence, Pick, LineageOf;
    PickedExactly(InLineage(artifacts, LineageOf(member, artifacts), MembershipActivation), LaterEpoch, a);
  }

  // ---- terms and identities -------------------------------------------------

  /** The member's own declaration issued at the latest epoch, of those with the lowest
      identifier. */
  ghost predicate NewestDelegation(member: Id, artifacts: seq<Artifact>, a: Artifact) {
    Filed(member, artifacts, DelegationDeclaration, a) && a.issuer == member &&
    forall b | b in artifacts && Filed(member, artifacts, DelegationDeclaration, b) && b.issuer == member && b != a ::
      b.issuerEpoch < a.issuerEpoch || (b.issuerEpoch == a.issuerEpoch && a.evidence < b.evidence)
  }

  /** The terms are those of the newest own delegation, and without one those of the
      constitution declared. */
  lemma TermsExactly(member: Id, artifacts: seq<Artifact>, founder: Option<Declaration>)
    requires ByEvidence(artifacts)
    ensures forall a | NewestDelegation(member, artifacts, a) ::
              TermsOf(member, artifacts, founder) == a.body.delegatedTerms
    ensures (forall a | a in artifacts :: !(Filed(member, artifacts, DelegationDeclaration, a) && a.issuer == member)) ==>
              TermsOf(member, artifacts, founder) == DeclarationOf(member, artifacts, founder).constitution.delegated
  {
    ComparatorsAreOrders();
    Distinct(artifacts);
    var own := OwnedBy(member, InLineage(artifacts, LineageOf(member, artifacts), DelegationDeclaration));
    forall b ensures b in own <==> Filed(member, artifacts, DelegationDeclaration, b) && b.issuer == member {
      OwnFiled(member, artifacts, DelegationDeclaration, b);
    }
    hide ByEvidence, Pick, LineageOf, OwnedBy, InLineage, DeclarationOf;
    forall a ensures Pick(own, LaterIssue) == Some(a) <==> NewestDelegation(member, artifacts, a) {
      PickedExactly(own, LaterIssue, a);
    }
    if own != [] {
      assert own[0] in own;
    }
  }

  /** Withdrawn is what the member itself has withdrawn in its current lineage. */
  lemma WithdrawnExactly(member: Id, artifacts: seq<Artifact>, g: Grant)
    ensures g in WithdrawnBy(member, artifacts) <==>
            exists a | a in artifacts ::
              Filed(member, artifacts, DelegationWithdrawal, a) && a.issuer == member && g in a.body.withdrawnGrants
  {
    hide LineageOf;
    var withdrawals := InLineage(artifacts, LineageOf(member, artifacts), DelegationWithdrawal);
    assert forall a :: a in withdrawals <==> a in artifacts && Filed(member, artifacts, DelegationWithdrawal, a);
  }

  /** An own acceptance of exactly the proposed constitution. */
  predicate Accepts(member: Id, artifacts: seq<Artifact>, p: Artifact, c: Artifact) {
    && Filed(member, artifacts, MembershipAcceptance, c) && c.issuer == member
    && c.body.declaredIdentity.constitution == DigestOf(p.body.declaration.constitution)
  }

  /** The accepting one with the lowest identifier. */
  ghost predicate FirstAcceptance(member: Id, artifacts: seq<Artifact>, p: Artifact, c: Artifact) {
    Accepts(member, artifacts, p, c) &&
    forall b | b in artifacts && Accepts(member, artifacts, p, b) && b != c :: c.evidence < b.evidence
  }

  lemma ConsentExactly(member: Id, artifacts: seq<Artifact>, p: Artifact)
    requires ByEvidence(artifacts)
    ensures Consent(member, artifacts, p).Some? <==> exists c | c in artifacts :: Accepts(member, artifacts, p, c)
    ensures forall c :: Consent(member, artifacts, p) == Some(c) <==> FirstAcceptance(member, artifacts, p, c)
  {
    ComparatorsAreOrders();
    Distinct(artifacts);
    hide LineageOf, Pick;
    var matching := Matching(member, InLineage(artifacts, LineageOf(member, artifacts), MembershipAcceptance), p);
    assert forall c :: c in matching <==> c in artifacts && Accepts(member, artifacts, p, c);
    hide ByEvidence, Matching, InLineage, Accepts;
    forall c ensures Consent(member, artifacts, p) == Some(c) <==> FirstAcceptance(member, artifacts, p, c) {
      PickedExactly(matching, LowerEvidence, c);
    }
    if matching != [] {
      assert matching[0] in matching;
    }
  }

  /** An identity says what a declaration declares. */
  predicate Declares(d: Declaration, identity: Identity) {
    && identity.domain == d.constitution.domain && identity.member == d.constitution.member
    && identity.generation == d.constitution.generation && identity.constitution == DigestOf(d.constitution)
    && identity.incarnation == d.incarnation && identity.node == d.node && identity.startedAt == d.declaredAt
  }

  /** The current identity and declaration are those of the newest own re-attestation. */
  lemma CurrentByAttestation(member: Id, artifacts: seq<Artifact>, founder: Option<Declaration>, a: Artifact)
    requires ByEvidence(artifacts) && NewestAttestation(member, artifacts, a)
    ensures CurrentIdentity(member, artifacts, founder) == a.body.declaredIdentity
    ensures DeclarationOf(member, artifacts, founder) == a.body.declaration
  {
    LatestAttestationExactly(member, artifacts, a);
    hide ByEvidence, LatestAttestation, Operative, Consent, NewestAttestation;
  }

  /** Without one the declaration is the newest proposal's, and the identity the one declared
      in the first acceptance of it, or, if it has not been accepted, in the proposal. */
  lemma CurrentByProposal(member: Id, artifacts: seq<Artifact>, founder: Option<Declaration>, p: Artifact)
    requires ByEvidence(artifacts) && NewestProposal(member, artifacts, p)
    requires forall a | a in artifacts :: !OwnAttestation(member, artifacts, a)
    ensures DeclarationOf(member, artifacts, founder) == p.body.declaration
    ensures forall c | FirstAcceptance(member, artifacts, p, c) ::
              Declares(c.body.declaration, CurrentIdentity(member, artifacts, founder))
    ensures (forall c | c in artifacts :: !Accepts(member, artifacts, p, c)) ==>
              Declares(p.body.declaration, CurrentIdentity(member, artifacts, founder))
  {
    NoAttestation(member, artifacts);
    OperativeExactly(member, artifacts, p);
    ConsentExactly(member, artifacts, p);
    hide ByEvidence, LatestAttestation, Operative, Consent, NewestProposal, FirstAcceptance, Accepts, OwnAttestation;
  }

  /** A founder nobody else has proposed is who the genesis record says. */
  lemma CurrentFounder(member: Id, artifacts: seq<Artifact>, founder: Option<Declaration>)
    requires IsFounder(member, founder)
    requires forall a | a in artifacts :: !OwnAttestation(member, artifacts, a) && !Proposes(member, artifacts, a)
    ensures DeclarationOf(member, artifacts, founder) == founder.value
    ensures Declares(founder.value, CurrentIdentity(member, artifacts, founder))
  {
    NoAttestation(member, artifacts);
    NothingProposed(member, artifacts);
    hide LatestAttestation, Operative, Proposes, OwnAttestation;
  }

  lemma NoAttestation(member: Id, artifacts: seq<Artifact>)
    ensures LatestAttestation(member, artifacts).None? <==>
            !exists a | a in artifacts :: OwnAttestation(member, artifacts, a)
  {
    forall a ensures a in Attestations(member, artifacts) <==>
                     Filed(member, artifacts, MemberReattestation, a) && a.issuer == member
    {
      OwnFiled(member, artifacts, MemberReattestation, a);
    }
    hide Pick, Attestations, LineageOf;
    if Attestations(member, artifacts) != [] {
      assert Attestations(member, artifacts)[0] in Attestations(member, artifacts);
    }
  }

  /** What the member was admitted as: the newest proposal's declaration, or the founder's. */
  lemma AdmittedExactly(member: Id, artifacts: seq<Artifact>, founder: Option<Declaration>)
    requires ByEvidence(artifacts)
    ensures forall p | NewestProposal(member, artifacts, p) ::
              Declares(p.body.declaration, AdmittedIdentity(member, artifacts, founder))
    ensures (forall p | p in artifacts :: !Proposes(member, artifacts, p)) && IsFounder(member, founder) ==>
              Declares(founder.value, AdmittedIdentity(member, artifacts, founder))
  {
    hide ByEvidence, Operative, NewestProposal, Proposes;
    NothingProposed(member, artifacts);
    forall p | NewestProposal(member, artifacts, p) ensures Operative(member, artifacts) == Some(p) {
      OperativeExactly(member, artifacts, p);
    }
  }

  // ---- admission ------------------------------------------------------------

  /** Established third parties that endorsed exactly the proposed constitution. */
  ghost function Vouching(member: Id, artifacts: seq<Artifact>, p: Artifact, established: set<Id>): set<Id> {
    set e | e in established && e != member && e != p.issuer &&
      exists a | a in artifacts ::
        && Filed(member, artifacts, MembershipEndorsement, a) && a.issuer == e
        && a.body.declaredIdentity.constitution == DigestOf(p.body.declaration.constitution)
  }

  /** A proposal admits the member exactly if its issuer is established, the member has
      accepted that constitution, and there are enough parties and endorsements. */
  ghost predicate Admits(member: Id, artifacts: seq<Artifact>, p: Artifact, policy: Policy, established: set<Id>) {
    && p.issuer in established
    && (exists c | c in artifacts :: Accepts(member, artifacts, p, c))
    && |({p.issuer, member} + Vouching(member, artifacts, p, established)) - {NIL}| >= PartiesRequired(policy)
    && |Vouching(member, artifacts, p, established) - {NIL}| >= EndorsementsRequired(policy)
  }

  /** If somebody else has proposed the member, the newest such proposal has to admit it;
      otherwise only the founder is admitted. */
  ghost predicate AdmittedBy(member: Id, artifacts: seq<Artifact>, policy: Policy, founder: Option<Declaration>,
                             established: set<Id>) {
    if exists p | p in artifacts :: Proposes(member, artifacts, p) then
      exists p | p in artifacts :: NewestProposal(member, artifacts, p) && Admits(member, artifacts, p, policy, established)
    else founder.Some? && founder.value.constitution.member == member
  }

  lemma VouchingExactly(member: Id, artifacts: seq<Artifact>, p: Artifact, established: set<Id>)
    ensures Endorsers(member, artifacts, p, established) == Vouching(member, artifacts, p, established)
    ensures member !in Endorsers(member, artifacts, p, established)
    ensures p.issuer !in Endorsers(member, artifacts, p, established)
  {
    hide LineageOf;
    var endorsements := InLineage(artifacts, LineageOf(member, artifacts), MembershipEndorsement);
    forall e | e in Vouching(member, artifacts, p, established) ensures e in Endorsers(member, artifacts, p, established) {
      var a :| a in artifacts && Filed(member, artifacts, MembershipEndorsement, a) && a.issuer == e &&
               a.body.declaredIdentity.constitution == DigestOf(p.body.declaration.constitution);
      assert a in endorsements && Endorses(a, member, p, established);
    }
  }

  lemma AdmitsExactly(member: Id, artifacts: seq<Artifact>, p: Artifact, policy: Policy, established: set<Id>)
    requires ByEvidence(artifacts) && p.issuer != member
    ensures AdmittedUnder(p, member, artifacts, policy, established) <==> Admits(member, artifacts, p, policy, established)
  {
    ConsentExactly(member, artifacts, p);
    VouchingExactly(member, artifacts, p, established);
    hide ByEvidence, Vouching, Accepts, Endorsers, PartiesRequired, EndorsementsRequired, Consent;
    var endorsers := Endorsers(member, artifacts, p, established);
    assert CountedEndorsers(member, p.issuer, endorsers) == endorsers - {NIL};
  }

  lemma OneNewest(member: Id, artifacts: seq<Artifact>, p: Artifact, q: Artifact)
    requires ByEvidence(artifacts) && NewestProposal(member, artifacts, p) && NewestProposal(member, artifacts, q)
    ensures p == q
  {
    hide *;
    OperativeExactly(member, artifacts, p);
    OperativeExactly(member, artifacts, q);
  }

  lemma AdmissionExactly(member: Id, artifacts: seq<Artifact>, policy: Policy, founder: Option<Declaration>,
                         established: set<Id>)
    requires ByEvidence(artifacts)
    ensures AdmissionValid(member, artifacts, policy, founder, established) <==>
            AdmittedBy(member, artifacts, policy, founder, established)
  {
    hide NewestProposal, Proposes, Operative, ByEvidence, AdmittedUnder, Admits;
    NothingProposed(member, artifacts);
    if Operative(member, artifacts).Some? {
      var p := Operative(member, artifacts).value;
      OperativeExactly(member, artifacts, p);
      NewestIsProposed(member, artifacts, p);
      AdmitsExactly(member, artifacts, p, policy, established);
      forall q | NewestProposal(member, artifacts, q) ensures q == p {
        OneNewest(member, artifacts, p, q);
      }
    }
  }

  lemma NewestIsProposed(member: Id, artifacts: seq<Artifact>, p: Artifact)
    requires NewestProposal(member, artifacts, p)
    ensures p in artifacts && Proposes(member, artifacts, p) && p.issuer != member
  {
  }

  // ---- conflicts between proposals ------------------------------------------

  lemma {:induction false} IdentityConflictsAre(proposals: seq<Artifact>, chosen: Artifact, c: Conflict)
    ensures c in IdentityConflicts(proposals, chosen) <==>
            exists q | q in proposals ::
              && q.body.declaration.constitution != chosen.body.declaration.constitution
              && c == Conflict(NO_GRANT, ConflictingIdentity, {chosen.issuer, q.issuer})
  {
    if proposals != [] {
      IdentityConflictsAre(proposals[..|proposals| - 1], chosen, c);
      assert proposals == proposals[..|proposals| - 1] + [proposals[|proposals| - 1]];
    }
  }

  /** A member's own evidence conflicts exactly where somebody else's proposal differs from
      the newest one in the constitution it proposes, and both issuers are named. */
  lemma ProposalsConflictExactly(member: Id, artifacts: seq<Artifact>, c: Conflict)
    requires ByEvidence(artifacts)
    ensures c in ConflictsOf(member, artifacts) <==>
            exists p, q | p in artifacts && q in artifacts ::
              && NewestProposal(member, artifacts, p) && Proposes(member, artifacts, q)
              && q.body.declaration.constitution != p.body.declaration.constitution
              && c == Conflict(NO_GRANT, ConflictingIdentity, {p.issuer, q.issuer})
  {
    var sponsored := Sponsored(member, InLineage(artifacts, LineageOf(member, artifacts), MembershipProposal));
    SponsoredAre(member, artifacts);
    NothingProposed(member, artifacts);
    hide NewestProposal, Proposes, Operative, ByEvidence, Sponsored, InLineage, LineageOf, IdentityConflicts;
    if Operative(member, artifacts).Some? {
      var p := Operative(member, artifacts).value;
      OperativeExactly(member, artifacts, p);
      NewestIsProposed(member, artifacts, p);
      IdentityConflictsAre(sponsored, p, c);
      forall r | NewestProposal(member, artifacts, r) ensures r == p {
        OneNewest(member, artifacts, p, r);
      }
    } else {
      forall r | NewestProposal(member, artifacts, r) ensures r in artifacts && Proposes(member, artifacts, r) {
        NewestIsProposed(member, artifacts, r);
      }
    }
  }

  lemma SponsoredAre(member: Id, artifacts: seq<Artifact>)
    ensures forall q :: q in Sponsored(member, InLineage(artifacts, LineageOf(member, artifacts), MembershipProposal)) <==>
                        q in artifacts && Proposes(member, artifacts, q)
  {
    hide LineageOf;
  }

  // ---- fences and currency --------------------------------------------------

  /** A fence by the coordinator or the member itself that no activation is past. */
  ghost predicate FencedOff(member: Id, artifacts: seq<Artifact>) {
    exists f | f in artifacts ::
      && Filed(member, artifacts, MembershipFence, f) && (f.issuer == member || f.issuer == NIL)
      && forall a | a in artifacts && Filed(member, artifacts, MembershipActivation, a) :: a.body.epoch <= f.body.epoch
  }

  lemma ActivationIsHighest(member: Id, artifacts: seq<Artifact>)
    ensures Activation(member, artifacts).Some? <==> AnyFiled(member, artifacts, MembershipActivation)
    ensures Activation(member, artifacts).Some? ==>
              && Filed(member, artifacts, MembershipActivation, Activation(member, artifacts).value)
              && forall a | a in artifacts && Filed(member, artifacts, MembershipActivation, a) ::
                   a.body.epoch <= Activation(member, artifacts).value.body.epoch
  {
    hide LineageOf;
    var activations := InLineage(artifacts, LineageOf(member, artifacts), MembershipActivation);
    assert forall a :: a in activations <==> a in artifacts && Filed(member, artifacts, MembershipActivation, a);
    if activations != [] {
      ComparatorsAreOrders();
      PickIsMaximal(activations, LaterEpoch);
      hide Pick;
      assert forall a | a in activations :: !LaterEpoch(a, Activation(member, artifacts).value);
    }
  }

  lemma FenceIsHighest(member: Id, artifacts: seq<Artifact>)
    ensures var fenced := exists f | f in artifacts ::
              Filed(member, artifacts, MembershipFence, f) && (f.issuer == member || f.issuer == NIL);
            Fence(member, artifacts).Some? <==> fenced
    ensures Fence(member, artifacts).Some? ==>
              var f := Fence(member, artifacts).value;
              && Filed(member, artifacts, MembershipFence, f) && (f.issuer == member || f.issuer == NIL)
              && forall g | g in artifacts && Filed(member, artifacts, MembershipFence, g) &&
                            (g.issuer == member || g.issuer == NIL) :: g.body.epoch <= f.body.epoch
  {
    hide LineageOf;
    var fences := AcceptedFences(member, InLineage(artifacts, LineageOf(member, artifacts), MembershipFence));
    assert forall f :: f in fences <==>
      f in artifacts && Filed(member, artifacts, MembershipFence, f) && (f.issuer == member || f.issuer == NIL);
    if fences != [] {
      ComparatorsAreOrders();
      PickIsMaximal(fences, HigherFenceEpoch);
      hide Pick;
      assert forall f | f in fences :: !HigherFenceEpoch(f, Fence(member, artifacts).value);
    }
  }

  lemma FencedExactly(member: Id, artifacts: seq<Artifact>)
    ensures FencedByOrder(member, artifacts) <==> FencedOff(member, artifacts)
  {
    ActivationIsHighest(member, artifacts);
    FenceIsHighest(member, artifacts);
    hide Activation, Fence, Filed;
    if FencedByOrder(member, artifacts) {
      var f := Fence(member, artifacts).value;
      assert f in artifacts by {
        FiledIsThere(member, artifacts, MembershipFence, f);
      }
    }
    if Activation(member, artifacts).Some? {
      FiledIsThere(member, artifacts, MembershipActivation, Activation(member, artifacts).value);
    }
  }

  lemma FiledIsThere(member: Id, artifacts: seq<Artifact>, kind: Kind, a: Artifact)
    requires Filed(member, artifacts, kind, a)
    ensures a in artifacts && a.kind == kind && a.body.lineage == LineageOf(member, artifacts)
  {
  }

  /** Current at an epoch: the own re-attestation with the highest identifier names it or a
      later one. Without any, no activation names another epoch as the highest. */
  ghost predicate CurrentAt(member: Id, artifacts: seq<Artifact>, epoch: nat) {
    if exists a | a in artifacts :: OwnAttestation(member, artifacts, a)
    then AttestedFor(member, artifacts, epoch)
    else AnyFiled(member, artifacts, MembershipActivation) ==> ActivatedFor(member, artifacts, epoch)
  }

  ghost predicate AttestedFor(member: Id, artifacts: seq<Artifact>, epoch: nat) {
    exists a | a in artifacts ::
      && OwnAttestation(member, artifacts, a) && a.body.epoch >= epoch
      && forall b | b in artifacts && OwnAttestation(member, artifacts, b) :: b.evidence <= a.evidence
  }

  ghost predicate ActivatedFor(member: Id, artifacts: seq<Artifact>, epoch: nat) {
    && (exists a | a in artifacts :: Filed(member, artifacts, MembershipActivation, a) && a.body.epoch == epoch)
    && forall a | a in artifacts && Filed(member, artifacts, MembershipActivation, a) :: a.body.epoch <= epoch
  }

  lemma LastDecides(own: seq<Artifact>, epoch: nat)
    requires ByEvidence(own) && own != []
    ensures own[|own| - 1].body.epoch >= epoch <==>
            exists a | a in own :: a.body.epoch >= epoch && forall b | b in own :: b.evidence <= a.evidence
  {
    var last := own[|own| - 1];
    assert last in own && forall b | b in own :: b.evidence <= last.evidence;
    assert forall a | a in own && (forall b | b in own :: b.evidence <= a.evidence) :: a == last;
  }

  lemma AttestationsAre(member: Id, artifacts: seq<Artifact>)
    requires ByEvidence(artifacts)
    ensures ByEvidence(Attestations(member, artifacts))
    ensures forall a :: a in Attestations(member, artifacts) <==> a in artifacts && OwnAttestation(member, artifacts, a)
    ensures Attestations(member, artifacts) == [] <==>
            !exists a | a in artifacts :: OwnAttestation(member, artifacts, a)
  {
    AttestationsInOrder(member, artifacts);
    forall a ensures a in Attestations(member, artifacts) <==> a in artifacts && OwnAttestation(member, artifacts, a) {
      OwnFiled(member, artifacts, MemberReattestation, a);
    }
    hide Attestations, LineageOf, ByEvidence, OwnAttestation;
    if Attestations(member, artifacts) != [] {
      assert Attestations(member, artifacts)[0] in Attestations(member, artifacts);
    }
  }

  lemma LastAttests(member: Id, artifacts: seq<Artifact>, own: seq<Artifact>, epoch: nat)
    requires ByEvidence(own) && own != []
    requires forall a :: a in own <==> a in artifacts && OwnAttestation(member, artifacts, a)
    ensures own[|own| - 1].body.epoch >= epoch <==> AttestedFor(member, artifacts, epoch)
  {
    LastDecides(own, epoch);
    hide OwnAttestation, ByEvidence;
  }

  lemma CurrentByActivation(member: Id, artifacts: seq<Artifact>, epoch: nat)
    ensures (Activation(member, artifacts).Some? ==> Activation(member, artifacts).value.body.epoch == epoch) <==>
            (AnyFiled(member, artifacts, MembershipActivation) ==> ActivatedFor(member, artifacts, epoch))
  {
    ActivationIsHighest(member, artifacts);
    hide Activation, LineageOf;
  }

  lemma CurrentAtExactly(member: Id, artifacts: seq<Artifact>, epoch: nat)
    requires ByEvidence(artifacts)
    ensures ActivationCurrent(member, artifacts, epoch) <==> CurrentAt(member, artifacts, epoch)
  {
    hide Attestations, ByEvidence, Activation, AnyFiled, OwnAttestation, AttestedFor, ActivatedFor;
    AttestationsAre(member, artifacts);
    if Attestations(member, artifacts) != [] {
      LastAttests(member, artifacts, Attestations(member, artifacts), epoch);
    } else {
      CurrentByActivation(member, artifacts, epoch);
    }
  }

  lemma AttestationsInOrder(member: Id, artifacts: seq<Artifact>)
    requires ByEvidence(artifacts)
    ensures ByEvidence(Attestations(member, artifacts))
  {
    hide LineageOf, ByEvidence;
    var lineage := LineageOf(member, artifacts);
    FilterKeepsOrder(artifacts, (a: Artifact) => a.kind == MemberReattestation && a.body.lineage == lineage);
    FilterKeepsOrder(InLineage(artifacts, lineage, MemberReattestation), (a: Artifact) => a.issuer == member);
  }

  // ---- lifecycles -----------------------------------------------------------

  /** Evidence stands behind the member, and it has neither gone nor been fenced off. */
  ghost predicate Upright(member: Id, artifacts: seq<Artifact>, ctx: Context) {
    && !AnyFiled(member, artifacts, MembershipRetirement) && !AnyFiled(member, artifacts, MembershipLeave)
    && (AnyFiled(member, artifacts, MembershipProposal) || IsFounder(member, ctx.founder))
    && !FencedOff(member, artifacts)
    && AdmittedBy(member, artifacts, ctx.policy, ctx.founder, ctx.established)
  }

  /** The constitution the member now declares is the one it was admitted with. */
  predicate AsAdmitted(member: Id, artifacts: seq<Artifact>, founder: Option<Declaration>) {
    CurrentIdentity(member, artifacts, founder).constitution == AdmittedIdentity(member, artifacts, founder).constitution
  }

  /** It has changed generation since, and the policy wants that consented to again. */
  predicate OwesConsent(member: Id, artifacts: seq<Artifact>, policy: Policy, founder: Option<Declaration>) {
    && ReconsentOnGenerationChange(policy)
    && AdmittedIdentity(member, artifacts, founder).generation != 0
    && AdmittedIdentity(member, artifacts, founder).generation != CurrentIdentity(member, artifacts, founder).generation
  }

  /** Not current, in a federation that suspends, or without a mandatory capability. */
  ghost predicate Impaired(member: Id, artifacts: seq<Artifact>, ctx: Context) {
    || !CurrentAt(member, artifacts, ctx.epoch)
    || (ctx.reconciling && SuspendsWhileReconciling(ctx.policy))
    || (ctx.partition in {Split, Indeterminate} && SuspendsOnPartition(ctx.policy))
    || (MandatoryCapabilities(ctx.policy) != {} &&
        !ctx.compatible(MandatoryCapabilities(ctx.policy),
                        DeclarationOf(member, artifacts, ctx.founder).constitution.capabilities))
  }

  lemma RungsExactly(member: Id, artifacts: seq<Artifact>, ctx: Context)
    requires ByEvidence(artifacts)
    ensures Has(member, artifacts, MembershipRetirement) <==> AnyFiled(member, artifacts, MembershipRetirement)
    ensures Has(member, artifacts, MembershipLeave) <==> AnyFiled(member, artifacts, MembershipLeave)
    ensures Has(member, artifacts, MembershipProposal) <==> AnyFiled(member, artifacts, MembershipProposal)
    ensures FencedByOrder(member, artifacts) <==> FencedOff(member, artifacts)
    ensures AdmissionValid(member, artifacts, ctx.policy, ctx.founder, ctx.established) <==>
            AdmittedBy(member, artifacts, ctx.policy, ctx.founder, ctx.established)
    ensures Activation(member, artifacts).Some? <==> AnyFiled(member, artifacts, MembershipActivation)
    ensures SameConstitution(member, artifacts, ctx.founder) <==> AsAdmitted(member, artifacts, ctx.founder)
    ensures MustReconsent(member, artifacts, ctx.policy, ctx.founder) <==>
            OwesConsent(member, artifacts, ctx.policy, ctx.founder)
    ensures !ActivationCurrent(member, artifacts, ctx.epoch) || Suspended(ctx) || CapabilityGap(member, artifacts, ctx) <==>
            Impaired(member, artifacts, ctx)
  {
    hide *;
    HasExactly(member, artifacts, MembershipRetirement);
    HasExactly(member, artifacts, MembershipLeave);
    HasExactly(member, artifacts, MembershipProposal);
    FencedExactly(member, artifacts);
    AdmissionExactly(member, artifacts, ctx.policy, ctx.founder, ctx.established);
    ActivationIsHighest(member, artifacts);
    ChangesExactly(member, artifacts, ctx);
    CurrentAtExactly(member, artifacts, ctx.epoch);
    ImpairedExactly(member, artifacts, ctx);
  }

  lemma ChangesExactly(member: Id, artifacts: seq<Artifact>, ctx: Context)
    ensures SameConstitution(member, artifacts, ctx.founder) <==> AsAdmitted(member, artifacts, ctx.founder)
    ensures MustReconsent(member, artifacts, ctx.policy, ctx.founder) <==>
            OwesConsent(member, artifacts, ctx.policy, ctx.founder)
  {
    hide CurrentIdentity, AdmittedIdentity, ReconsentOnGenerationChange;
  }

  lemma ImpairedExactly(member: Id, artifacts: seq<Artifact>, ctx: Context)
    requires ActivationCurrent(member, artifacts, ctx.epoch) <==> CurrentAt(member, artifacts, ctx.epoch)
    ensures !ActivationCurrent(member, artifacts, ctx.epoch) || Suspended(ctx) || CapabilityGap(member, artifacts, ctx) <==>
            Impaired(member, artifacts, ctx)
  {
    hide ActivationCurrent, CurrentAt, DeclarationOf, MandatoryCapabilities, SuspendsOnPartition,
         SuspendsWhileReconciling;
  }

  /** Federation authority is held exactly by a member that stands upright, has been
      activated, and still has the constitution it was admitted with; Active if nothing
      impairs it and Degraded otherwise. */
  lemma AuthorityIsHeldIff(member: Id, artifacts: seq<Artifact>, ctx: Context)
    requires ByEvidence(artifacts)
    ensures var lifecycle := LifecycleOf(member, artifacts, ctx);
            var holds := Upright(member, artifacts, ctx) && AnyFiled(member, artifacts, MembershipActivation) &&
                         AsAdmitted(member, artifacts, ctx.founder);
            && (HoldsFederationAuthority(lifecycle) <==> holds)
            && (lifecycle == Active <==> holds && !Impaired(member, artifacts, ctx))
            && (lifecycle == Degraded <==> holds && Impaired(member, artifacts, ctx))
  {
    hide *;
    RungsExactly(member, artifacts, ctx);
    Rungs(member, artifacts, ctx);
  }

  lemma Rungs(member: Id, artifacts: seq<Artifact>, ctx: Context)
    requires Has(member, artifacts, MembershipRetirement) <==> AnyFiled(member, artifacts, MembershipRetirement)
    requires Has(member, artifacts, MembershipLeave) <==> AnyFiled(member, artifacts, MembershipLeave)
    requires Has(member, artifacts, MembershipProposal) <==> AnyFiled(member, artifacts, MembershipProposal)
    requires FencedByOrder(member, artifacts) <==> FencedOff(member, artifacts)
    requires AdmissionValid(member, artifacts, ctx.policy, ctx.founder, ctx.established) <==>
             AdmittedBy(member, artifacts, ctx.policy, ctx.founder, ctx.established)
    requires Activation(member, artifacts).Some? <==> AnyFiled(member, artifacts, MembershipActivation)
    requires SameConstitution(member, artifacts, ctx.founder) <==> AsAdmitted(member, artifacts, ctx.founder)
    requires MustReconsent(member, artifacts, ctx.policy, ctx.founder) <==>
             OwesConsent(member, artifacts, ctx.policy, ctx.founder)
    requires !ActivationCurrent(member, artifacts, ctx.epoch) || Suspended(ctx) || CapabilityGap(member, artifacts, ctx) <==>
             Impaired(member, artifacts, ctx)
    ensures var lifecycle := LifecycleOf(member, artifacts, ctx);
            var activated, same := AnyFiled(member, artifacts, MembershipActivation), AsAdmitted(member, artifacts, ctx.founder);
            && (lifecycle in {Active, Degraded} <==> Upright(member, artifacts, ctx) && activated && same)
            && (lifecycle == Degraded ==> Impaired(member, artifacts, ctx))
            && (lifecycle == Active ==> !Impaired(member, artifacts, ctx))
            && (lifecycle == Admitted <==>
                Upright(member, artifacts, ctx) &&
                (!activated || (!same && !OwesConsent(member, artifacts, ctx.policy, ctx.founder))))
    ensures HoldsFederationAuthority(LifecycleOf(member, artifacts, ctx)) <==>
            LifecycleOf(member, artifacts, ctx) in {Active, Degraded}
  {
    hide Has, AnyFiled, FencedByOrder, FencedOff, AdmissionValid, AdmittedBy, Activation, SameConstitution, AsAdmitted,
         MustReconsent, OwesConsent, ActivationCurrent, Suspended, CapabilityGap, Impaired;
  }

  /** The other lifecycles. A member that stands upright is Admitted while it has not been
      activated, or has changed its constitution without owing consent; owing it, it is
      Fenced. The first of retirement, departure, absence, fence and missing admission that
      applies decides for the others. */
  lemma LifecycleExactly(member: Id, artifacts: seq<Artifact>, ctx: Context)
    requires ByEvidence(artifacts)
    ensures var lifecycle := LifecycleOf(member, artifacts, ctx);
            var retired, left := AnyFiled(member, artifacts, MembershipRetirement), AnyFiled(member, artifacts, MembershipLeave);
            var known := AnyFiled(member, artifacts, MembershipProposal) || IsFounder(member, ctx.founder);
            var fenced := FencedOff(member, artifacts);
            var admitted := AdmittedBy(member, artifacts, ctx.policy, ctx.founder, ctx.established);
            var activated, same := AnyFiled(member, artifacts, MembershipActivation), AsAdmitted(member, artifacts, ctx.founder);
            var owes := OwesConsent(member, artifacts, ctx.policy, ctx.founder);
            && (lifecycle == Retired <==> retired)
            && (lifecycle == Leaving <==> !retired && left)
            && (lifecycle == Absent <==> !retired && !left && !known)
            && (lifecycle == Fenced <==>
                !retired && !left && known && (fenced || (admitted && activated && !same && owes)))
            && (lifecycle == Proposed <==> !retired && !left && known && !fenced && !admitted)
            && (lifecycle == Admitted <==>
                !retired && !left && known && !fenced && admitted && (!activated || (!same && !owes)))
  {
    RungsExactly(member, artifacts, ctx);
    hide Has, AnyFiled, FencedByOrder, FencedOff, AdmissionValid, AdmittedBy, Activation, SameConstitution, AsAdmitted,
         MustReconsent, OwesConsent, ActivationCurrent, Suspended, CapabilityGap, Impaired, ByEvidence;
  }

  // ---- in a derived state ---------------------------------------------------

  /** In a derived state: the founder and the members established are those of the fixpoint,
      and what impairs is the state's own epoch, partition and reconciliation. */
  lemma DerivedExactly(i: Inputs, member: Id)
    ensures var d, about := DerivationOf(i, member), Standing.About(Accepted(i), member);
            var policy, founder := WorldOf(i).policy, WorldOf(i).founder;
            && ByEvidence(about)
            && (HoldsFederationAuthority(d.lifecycle) <==>
                && !AnyFiled(member, about, MembershipRetirement) && !AnyFiled(member, about, MembershipLeave)
                && (AnyFiled(member, about, MembershipProposal) || IsFounder(member, founder))
                && !FencedOff(member, about)
                && AdmittedBy(member, about, policy, founder, Standing.Established(WorldOf(i)))
                && AnyFiled(member, about, MembershipActivation)
                && AsAdmitted(member, about, founder))
            && (d.lifecycle == Active <==>
                && HoldsFederationAuthority(d.lifecycle)
                && CurrentAt(member, about, EpochOf(Accepted(i))) && !Suspending(i)
                && (MandatoryCapabilities(policy) == {} ||
                    i.compatible(MandatoryCapabilities(policy), d.declaration.constitution.capabilities)))
  {
    AboutKeepsOrder(Accepted(i), member);
    var about := Standing.About(Accepted(i), member);
    Standing.DerivedLifecycle(member, about, FinalContext(i));
    DerivedDeclaration(member, about, FinalContext(i));
    AuthorityIsHeldIff(member, about, FinalContext(i));
    hide Standing.About, Accepted, EffectivePolicy, MemberOrder, Founder, Derive, LifecycleOf, AnyFiled, FencedOff,
         AdmittedBy, AsAdmitted, CurrentAt, Standing.Established, PartitionOf, IsReconciling, ByEvidence, DeclarationOf,
         MandatoryCapabilities, EpochOf, SuspendsOnPartition, SuspendsWhileReconciling, IsFounder;
  }

  lemma DerivedDeclaration(member: Id, artifacts: seq<Artifact>, ctx: Context)
    ensures Derive(member, artifacts, ctx).declaration == DeclarationOf(member, artifacts, ctx.founder)
    ensures Derive(member, artifacts, ctx).currentIdentity == CurrentIdentity(member, artifacts, ctx.founder)
  {
  }

  /** Whoever holds federation authority in a derived state has been activated in its
      current lineage, and still has the very constitution it was admitted with. */
  lemma AuthorityIsActivated(i: Inputs, member: Id)
    requires HoldsFederationAuthority(DerivationOf(i, member).lifecycle)
    ensures var d := DerivationOf(i, member);
            && d.currentIdentity.constitution == d.admittedIdentity.constitution
            && exists a | a in Accepted(i) ::
                 a.kind == MembershipActivation && a.subject == member && a.body.lineage == d.lineage
  {
    hide *;
    DerivedExactly(i, member);
    DerivedFrom(i, member);
    var about := Standing.About(Accepted(i), member);
    var a := FiledArtifact(member, about, MembershipActivation);
    FiledIsThere(member, about, MembershipActivation, a);
    AboutIsAccepted(Accepted(i), member, a);
    AdmittedConstitution(member, about, FinalContext(i));
  }

  lemma DerivedFrom(i: Inputs, member: Id)
    ensures DerivationOf(i, member) == Derive(member, Standing.About(Accepted(i), member), FinalContext(i))
    ensures FinalContext(i).founder == WorldOf(i).founder
  {
    hide Derive, Standing.About, WorldOf, PartitionOf, IsReconciling;
  }

  lemma FiledArtifact(member: Id, artifacts: seq<Artifact>, kind: Kind) returns (a: Artifact)
    requires AnyFiled(member, artifacts, kind)
    ensures Filed(member, artifacts, kind, a)
  {
    a :| a in artifacts && Filed(member, artifacts, kind, a);
  }

  lemma AboutIsAccepted(accepted: seq<Artifact>, member: Id, a: Artifact)
    requires a in Standing.About(accepted, member)
    ensures a in accepted && a.subject == member
  {
  }

  lemma AdmittedConstitution(member: Id, artifacts: seq<Artifact>, ctx: Context)
    requires AsAdmitted(member, artifacts, ctx.founder)
    ensures var d := Derive(member, artifacts, ctx);
            d.currentIdentity.constitution == d.admittedIdentity.constitution && d.lineage == LineageOf(member, artifacts)
  {
    hide LineageOf, CurrentIdentity, AdmittedIdentity, LifecycleOf;
  }
}
