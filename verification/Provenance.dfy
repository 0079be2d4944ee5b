// Where the federation-wide facts of a derived state come from, by the fields of the
// accepted artefacts: the policy in force, the founder, the members, reconciliation, and
// the disputes over claimed grants.
module Provenance {
  import opened Sequences
  import opened Scopes
  import opened Policies
  import opened Identities
  import opened Evidence
  import opened Membership
  import Standing
  import opened State
  import opened StateProperties

  // ---- genesis and founder --------------------------------------------------

  ghost predicate OnlyGenesis(accepted: seq<Artifact>, g: Artifact) {
    && g in accepted && g.kind == FederationGenesis
    && forall a | a in accepted && a.kind == FederationGenesis :: a == g
  }

  lemma OneOfKind(records: seq<Artifact>, g: Artifact)
    requires ByEvidence(records)
    ensures |records| == 1 && records[0] == g <==> g in records && forall a | a in records :: a == g
  {
    if g in records && |records| > 1 {
      assert records[0] in records && records[1] in records;
      assert records[0].evidence < records[1].evidence;
    }
  }

  /** The genesis record is the accepted one of its kind, if there is no other. */
  lemma GenesisExactly(accepted: seq<Artifact>, g: Artifact)
    requires ByEvidence(accepted)
    ensures Genesis(accepted) == Some(g) <==> OnlyGenesis(accepted, g)
    ensures OnlyGenesis(accepted, g) ==> Founder(accepted) == Some(g.body.founder)
  {
    OfKindKeepsOrder(accepted, FederationGenesis);
    OneOfKind(OfKind(accepted, FederationGenesis), g);
  }

  // ---- the policy in force --------------------------------------------------

  lemma UpdatesBeat()
    ensures StrictWeakOrder(NewerPolicy)
  {
  }

  lemma DistinctEvidence(accepted: seq<Artifact>, a: Artifact, b: Artifact)
    requires ByEvidence(accepted) && a in accepted && b in accepted && a != b
    ensures a.evidence != b.evidence
  {
  }

  /** The accepted update with the highest generation, of those the one with the lowest
      identifier. */
  ghost predicate NewestUpdate(accepted: seq<Artifact>, u: Artifact) {
    && u in accepted && u.kind == PolicyUpdate
    && forall a | a in accepted && a.kind == PolicyUpdate && a != u ::
         || a.body.policyGeneration < u.body.policyGeneration
         || (a.body.policyGeneration == u.body.policyGeneration && u.evidence < a.evidence)
  }

  /** If any policy update is accepted, the policy in force is that of the newest. */
  lemma NewestUpdateIsInForce(accepted: seq<Artifact>, configured: Policy) returns (u: Artifact)
    requires ByEvidence(accepted) && exists a | a in accepted :: a.kind == PolicyUpdate
    ensures NewestUpdate(accepted, u) && EffectivePolicy(accepted, configured) == u.body.policy
  {
    var updates := OfKind(accepted, PolicyUpdate);
    var some :| some in accepted && some.kind == PolicyUpdate;
    assert some in updates;
    UpdatesBeat();
    PickIsMaximal(updates, NewerPolicy);
    hide Pick, ByEvidence;
    u := Pick(updates, NewerPolicy).value;
    forall a | a in accepted && a.kind == PolicyUpdate && a != u
      ensures a.body.policyGeneration < u.body.policyGeneration ||
              (a.body.policyGeneration == u.body.policyGeneration && u.evidence < a.evidence)
    {
      DistinctEvidence(accepted, a, u);
      assert a in updates && !NewerPolicy(a, u);
    }
  }

  lemma NoneOfKind(accepted: seq<Artifact>, kind: Kind)
    requires forall a | a in accepted :: a.kind != kind
    ensures OfKind(accepted, kind) == []
  {
    EmptyTogether(OfKind(accepted, kind), []);
  }

  /** Without one it is the policy of the only genesis record, and without exactly one of
      those the configured policy. */
  lemma FirstPolicyIsInForce(accepted: seq<Artifact>, configured: Policy)
    requires ByEvidence(accepted) && forall a | a in accepted :: a.kind != PolicyUpdate
    ensures forall g | OnlyGenesis(accepted, g) :: EffectivePolicy(accepted, configured) == g.body.policy
    ensures (forall g | g in accepted :: !OnlyGenesis(accepted, g)) ==>
              EffectivePolicy(accepted, configured) == configured
  {
    hide ByEvidence, Genesis;
    NoneOfKind(accepted, PolicyUpdate);
    forall g | g in accepted ensures Genesis(accepted) == Some(g) <==> OnlyGenesis(accepted, g) {
      GenesisExactly(accepted, g);
    }
    GenesisIsAccepted(accepted);
  }

  lemma GenesisIsAccepted(accepted: seq<Artifact>)
    ensures Genesis(accepted).Some? ==> Genesis(accepted).value in accepted
  {
    assert forall a | a in OfKind(accepted, FederationGenesis) :: a in accepted;
  }

  // ---- reconciliation -------------------------------------------------------

  predicate RecoveryAdvance(a: Artifact) {
    a.kind == EpochAdvance && a.body.reason in {AfterSplit, AfterIndeterminate}
  }

  lemma FenceEpochsBeat()
    ensures StrictWeakOrder(HigherFenceEpoch)
  {
  }

  /** Completion counts if and only if some completion record names an epoch that no
      recovery advance is past, and there has been a recovery at all. */
  lemma CompletionCountsExactly(accepted: seq<Artifact>)
    ensures Recovery(accepted).Some? <==> exists a | a in accepted :: RecoveryAdvance(a)
    ensures ReconciliationRecorded(accepted) <==>
            && (exists a | a in accepted :: RecoveryAdvance(a))
            && exists c | c in accepted :: c.kind == ReconciliationComplete &&
                 forall a | a in accepted && RecoveryAdvance(a) :: a.body.epoch <= c.body.epoch
  {
    var advances := Filter(accepted, RecoversFromPartition);
    assert forall a :: a in advances <==> a in accepted && RecoveryAdvance(a);
    if a :| a in accepted && RecoveryAdvance(a) {
      assert a in advances;
    }
    if Recovery(accepted).Some? {
      FenceEpochsBeat();
      PickIsMaximal(advances, HigherFenceEpoch);
      var last := Recovery(accepted).value;
      assert last in advances;
      hide Recovery;
      assert forall a | a in advances :: a.body.epoch <= last.body.epoch by {
        assert forall a | a in advances :: !HigherFenceEpoch(a, last);
      }
    }
  }

  ghost predicate Reattested(i: Inputs, member: Id) {
    exists a | a in Accepted(i) ::
      && a.kind == MemberReattestation && a.subject == member && member != NIL
      && a.body.lineage == LineageOf(member, Standing.About(Accepted(i), member))
  }

  lemma ReattestedExactly(i: Inputs, member: Id)
    ensures StandingDerivation(i, member).hasReattestation <==> Reattested(i, member)
  {
    hide LineageOf, Accepted, EffectivePolicy, MemberOrder, Founder, LifecycleOf;
    var about := Standing.About(Accepted(i), member);
    var own := InLineage(about, LineageOf(member, about), MemberReattestation);
    if own != [] {
      assert own[0] in own && own[0] in about;
    }
    if a :| a in Accepted(i) && a.kind == MemberReattestation && a.subject == member && member != NIL &&
            a.body.lineage == LineageOf(member, about) {
      assert a in about && a in own;
    }
  }

  /** The federation is reconciling from the first recovery advance until a completion
      record names an epoch no recovery is past and every established member has a
      re-attestation in its current lineage. */
  lemma ReconcilingExactly(i: Inputs)
    ensures IsReconciling(i) <==>
            && (exists a | a in Accepted(i) :: RecoveryAdvance(a))
            && ((forall c | c in Accepted(i) && c.kind == ReconciliationComplete ::
                   exists a | a in Accepted(i) :: RecoveryAdvance(a) && a.body.epoch > c.body.epoch)
                || exists m | m in ActiveMembers(i) :: !Reattested(i, m))
  {
    CompletionCountsExactly(Accepted(i));
    forall m ensures StandingDerivation(i, m).hasReattestation <==> Reattested(i, m) {
      ReattestedExactly(i, m);
    }
    hide Accepted, Recovery, ReconciliationRecorded, ActiveMembers, StandingDerivation, Reattested, RecoveryAdvance;
  }

  // ---- members --------------------------------------------------------------

  /** Derived are exactly the members that some accepted artefact is about, the founder, and
      the holders of leases. */
  lemma MembersAreExactly(i: Inputs, member: Id)
    ensures member in WorldOf(i).members <==>
            || (member != NIL && exists a | a in Accepted(i) :: a.subject == member)
            || IsFounder(member, WorldOf(i).founder)
            || (member != NIL && exists l | l in i.leases :: l.holder.member == member)
  {
    hide Accepted, EffectivePolicy, Founder;
    SubjectsAre(Accepted(i));
    HoldersAre(i.leases);
    hide Subjects, Holders;
  }

  // ---- disputes -------------------------------------------------------------

  /** Two live claims on the grant that cannot stand together: one of them is exclusive, or
      they are offered on different terms. */
  ghost predicate Clash(claims: seq<Claim>, grant: Grant) {
    exists j, k | 0 <= j < k < |ClaimsOn(claims, grant)| ::
      var a, b := ClaimsOn(claims, grant)[j].terms, ClaimsOn(claims, grant)[k].terms;
      || a.mode == Exclusive || b.mode == Exclusive
      || a.weight != b.weight || a.notAfter != b.notAfter || a.constraint != b.constraint
  }

  lemma ClashExactly(claims: seq<Claim>, grant: Grant)
    ensures FirstDisagreement(ClaimsOn(claims, grant), 1).Some? <==> Clash(claims, grant)
  {
    hide ClaimsOn;
    var group := ClaimsOn(claims, grant);
    UndisputedMeansAllAgree(group);
    forall j, k | 0 <= j < k < |group|
      ensures Disagreement(group[j].terms, group[k].terms).Some? <==>
              var a, b := group[j].terms, group[k].terms;
              || a.mode == Exclusive || b.mode == Exclusive
              || a.weight != b.weight || a.notAfter != b.notAfter || a.constraint != b.constraint
    {
      TermsClash(group[j].terms, group[k].terms);
    }
  }

  lemma TermsClash(a: Terms, b: Terms)
    ensures Disagreement(a, b).Some? <==>
            || a.mode == Exclusive || b.mode == Exclusive
            || a.weight != b.weight || a.notAfter != b.notAfter || a.constraint != b.constraint
    ensures Disagreement(a, b) == Some(ModeMismatch) <==> a.mode != b.mode
    ensures Disagreement(a, b) == Some(OverlappingExclusive) <==> a.mode == Exclusive && b.mode == Exclusive
  {
  }

  /** Somebody is named exactly once among the claimants of the grant, in the order of the
      first precedence rule for it, and nobody else is named. */
  ghost predicate Preferred(claims: seq<Claim>, policy: Policy, grant: Grant, member: Id) {
    var precedence := Precedence(policy.rules, grant);
    && precedence.Some?
    && exists k | 0 <= k < |precedence.value| ::
         && precedence.value[k] == member
         && (exists c | c in claims :: c.terms.grant == grant && c.member == member)
         && forall j | 0 <= j < |precedence.value| && j != k ::
              forall c | c in claims && c.terms.grant == grant :: c.member != precedence.value[j]
  }

  ghost predicate Sole(s: seq<Id>, keep: set<Id>, k: int) {
    && 0 <= k < |s| && s[k] in keep
    && forall j | 0 <= j < |s| && j != k :: s[j] !in keep
  }

  lemma {:induction false} SoleIsKept(s: seq<Id>, keep: set<Id>, k: int)
    requires Sole(s, keep, k)
    ensures Filter(s, (m: Id) => m in keep) == [s[k]]
  {
    var front := s[..|s| - 1];
    if k == |s| - 1 {
      NoMatch(front, keep);
    } else {
      assert s[|s| - 1] !in keep;
      SoleIsKept(front, keep, k);
    }
  }

  lemma {:induction false} KeptIsSole(s: seq<Id>, keep: set<Id>) returns (k: int)
    requires |Filter(s, (m: Id) => m in keep)| == 1
    ensures Sole(s, keep, k) && Filter(s, (m: Id) => m in keep) == [s[k]]
  {
    var front := s[..|s| - 1];
    if s[|s| - 1] in keep {
      k := |s| - 1;
      NoMatch(front, keep);
      assert forall j | 0 <= j < |s| && j != k :: s[j] == front[j];
    } else {
      k := KeptIsSole(front, keep);
      assert forall j | 0 <= j < |front| :: s[j] == front[j];
    }
  }

  lemma SingleMatch(s: seq<Id>, keep: set<Id>, member: Id)
    ensures Filter(s, (m: Id) => m in keep) == [member] <==>
            exists k | 0 <= k < |s| :: s[k] == member && Sole(s, keep, k)
  {
    if Filter(s, (m: Id) => m in keep) == [member] {
      var k := KeptIsSole(s, keep);
    }
    forall k | 0 <= k < |s| && Sole(s, keep, k) ensures Filter(s, (m: Id) => m in keep) == [s[k]] {
      SoleIsKept(s, keep, k);
    }
  }

  lemma NoMatch(s: seq<Id>, keep: set<Id>)
    ensures Filter(s, (m: Id) => m in keep) == [] <==> forall j | 0 <= j < |s| :: s[j] !in keep
  {
    var r := Filter(s, (m: Id) => m in keep);
    if r != [] {
      assert r[0] in r;
    }
    forall j | 0 <= j < |s| && s[j] in keep ensures r != [] {
      assert s[j] in r;
    }
  }

  lemma ClaimantsOf(claims: seq<Claim>, grant: Grant, member: Id)
    ensures member in Claimants(ClaimsOn(claims, grant)) <==>
            exists c | c in claims :: c.terms.grant == grant && c.member == member
  {
    if c :| c in claims && c.terms.grant == grant && c.member == member {
      assert c in ClaimsOn(claims, grant);
    }
  }

  /** What becomes of a claimed grant: undisputed exactly if no two claims on it clash, won
      exactly by the member configured precedence singles out, withheld from everybody
      otherwise. */
  lemma DisputeExactly(claims: seq<Claim>, policy: Policy, grant: Grant, member: Id)
    ensures DisputeOver(claims, policy, grant) == Undisputed <==> !Clash(claims, grant)
    ensures DisputeOver(claims, policy, grant) == WonBy(member) <==>
            Clash(claims, grant) && Preferred(claims, policy, grant, member)
  {
    ClashExactly(claims, grant);
    forall m ensures m in Claimants(ClaimsOn(claims, grant)) <==>
                     exists c | c in claims :: c.terms.grant == grant && c.member == m
    {
      ClaimantsOf(claims, grant, m);
    }
    var precedence := Precedence(policy.rules, grant);
    hide ClaimsOn, Precedence, Clash, FirstDisagreement, Claimants, Filter;
    if precedence.Some? {
      var keep := Claimants(ClaimsOn(claims, grant));
      SingleMatch(precedence.value, keep, member);
      forall k | 0 <= k < |precedence.value|
        ensures Sole(precedence.value, keep, k) <==>
                && (exists c | c in claims :: c.terms.grant == grant && c.member == precedence.value[k])
                && forall j | 0 <= j < |precedence.value| && j != k ::
                     forall c | c in claims && c.terms.grant == grant :: c.member != precedence.value[j]
      {
      }
    }
  }

  /** A withheld grant is recorded with all its claimants: as unsatisfiable precedence if a
      precedence rule exists for it, and otherwise under the way the first claim and the
      first one that clashes with it disagree. */
  lemma WithheldExactly(claims: seq<Claim>, policy: Policy, grant: Grant)
    ensures DisputeOver(claims, policy, grant).Withheld? <==>
            Clash(claims, grant) && forall member | member in Claimants(ClaimsOn(claims, grant)) ::
              !Preferred(claims, policy, grant, member)
    ensures DisputeOver(claims, policy, grant).Withheld? ==>
              var c, group := DisputeOver(claims, policy, grant).conflict, ClaimsOn(claims, grant);
              && c.grant == grant
              && (forall m :: m in c.claimants <==> exists x | x in claims :: x.terms.grant == grant && x.member == m)
              && (c.kind == PrecedenceUnsatisfiable <==> Precedence(policy.rules, grant).Some?)
              && (Precedence(policy.rules, grant).None? ==>
                    exists k | 1 <= k < |group| :: DisagreesAs(c.kind, group[0].terms, group[k].terms))
  {
    ClashExactly(claims, grant);
    var group := ClaimsOn(claims, grant);
    forall m ensures m in Claimants(group) <==> exists x | x in claims :: x.terms.grant == grant && x.member == m {
      ClaimantsOf(claims, grant, m);
    }
    forall m ensures DisputeOver(claims, policy, grant) == WonBy(m) <==>
                     Clash(claims, grant) && Preferred(claims, policy, grant, m)
    {
      DisputeExactly(claims, policy, grant, m);
    }
    WinnerClaims(claims, policy, grant);
    if FirstDisagreement(group, 1).Some? {
      var k := SomebodyDisagrees(group, 1);
      DisagreementKind(group[0].terms, group[k].terms);
    }
    hide ClaimsOn, Precedence, Clash, Preferred, FirstDisagreement, Claimants, Filter;
  }

  lemma WinnerClaims(claims: seq<Claim>, policy: Policy, grant: Grant)
    ensures var dispute := DisputeOver(claims, policy, grant);
            dispute.WonBy? ==> dispute.member in Claimants(ClaimsOn(claims, grant))
  {
    hide ClaimsOn, Precedence, FirstDisagreement, Claimants;
    if DisputeOver(claims, policy, grant).WonBy? {
      var matching := Ordered(Precedence(policy.rules, grant).value, Claimants(ClaimsOn(claims, grant)));
      assert matching[0] in matching;
    }
  }

  predicate DisagreesAs(kind: ConflictKind, a: Terms, b: Terms) {
    && (kind == ModeMismatch <==> a.mode != b.mode)
    && (kind == OverlappingExclusive <==> a.mode == b.mode == Exclusive)
    && (kind == AmbiguousPrecedence <==>
        a.mode == b.mode == Shared && !(a.weight == b.weight && a.notAfter == b.notAfter && a.constraint == b.constraint))
    && kind in {ModeMismatch, OverlappingExclusive, AmbiguousPrecedence}
  }

  lemma DisagreementKind(a: Terms, b: Terms)
    ensures Disagreement(a, b).Some? ==> DisagreesAs(Disagreement(a, b).value, a, b)
  {
  }

  // ---- what is in force -----------------------------------------------------

  /** The policy in force suspends global mutation in the situation the federation is in. */
  ghost predicate Suspending(i: Inputs) {
    || (IsReconciling(i) && SuspendsWhileReconciling(WorldOf(i).policy))
    || (PartitionOf(i).state in {Split, Indeterminate} && SuspendsOnPartition(WorldOf(i).policy))
  }

  /** Nothing but suspension or degradation keeps the member's term from being in force. */
  ghost predicate InOrder(i: Inputs, member: Id, d: Derivation, terms: Terms) {
    var policy, claims, grant := WorldOf(i).policy, ClaimsIn(i), terms.grant;
    && Classify(i.catalog, grant.scope) in {Known(ScopeClass.Federation), Known(GlobalMutation)}
    && !DelegationForbidden(policy, grant.scope)
    && !GrantsCover(d.withdrawn, grant)
    && (terms.notAfter == 0 || ClockOf(Accepted(i), i.logicalTime) <= terms.notAfter)
    && (Clash(claims, grant) ==> Preferred(claims, policy, grant, member))
    && HoldsFederationAuthority(d.lifecycle)
  }

  lemma DispositionExactly(i: Inputs, member: Id, d: Derivation, terms: Terms)
    ensures var class_ := Classify(i.catalog, terms.grant.scope);
            var suspended := class_ == Known(GlobalMutation) && Suspending(i);
            var impaired := d.lifecycle == Degraded && terms.grant.verb in {Mutate, Administer};
            && (DispositionOf(RegimeOf(i), member, d, terms) == GrantedNow <==>
                InOrder(i, member, d, terms) && !suspended && !impaired)
            && (DispositionOf(RegimeOf(i), member, d, terms) == SuspendedNow <==>
                InOrder(i, member, d, terms) && suspended)
            && (DispositionOf(RegimeOf(i), member, d, terms) == WithheldNow <==>
                !InOrder(i, member, d, terms) || (impaired && !suspended))
  {
    RegimeFields(i);
    DisputeExactly(ClaimsIn(i), WorldOf(i).policy, terms.grant, member);
    hide RegimeOf, ClaimsIn, WorldOf, Classify, DelegationForbidden, GrantsCover, ClockOf, Accepted, DisputeOver,
         Clash, Preferred, IsReconciling, PartitionOf, SuspendsOnPartition, SuspendsWhileReconciling;
  }

  ghost predicate OffersInOrder(i: Inputs, m: MemberState, grant: Grant) {
    exists t | t in m.derivation.delegatedTerms :: t.grant == grant && InOrder(i, m.member, m.derivation, t)
  }

  ghost predicate OffersOutOfOrder(i: Inputs, m: MemberState, grant: Grant) {
    exists t | t in m.derivation.delegatedTerms :: t.grant == grant && !InOrder(i, m.member, m.derivation, t)
  }

  /** A member's authority is exactly the grants of its declared terms that are in order and
      neither suspended nor, while it is degraded, mutating; the suspended ones are exactly
      the global mutations among those in order while the federation suspends them; withheld
      is every declared grant of a term out of order, or that a degraded member may not use. */
  lemma AuthorityExactly(i: Inputs, m: MemberState, grant: Grant)
    requires MemberIn(i, m)
    ensures var suspended := Classify(i.catalog, grant.scope) == Known(GlobalMutation) && Suspending(i);
            var impaired := m.derivation.lifecycle == Degraded && grant.verb in {Mutate, Administer};
            && (grant in m.authority <==> OffersInOrder(i, m, grant) && !suspended && !impaired)
            && (grant in m.withheldGlobal <==> OffersInOrder(i, m, grant) && suspended)
            && (grant in m.withheld <==>
                OffersOutOfOrder(i, m, grant) || (OffersInOrder(i, m, grant) && impaired && !suspended))
  {
    hide *;
    MembersAreSettled(i, m);
    SettledExactly(i, m, grant);
    OffersSorted(i, m, grant);
  }

  ghost predicate Disposes(i: Inputs, m: MemberState, grant: Grant, disposition: Disposition) {
    exists t | t in m.derivation.delegatedTerms ::
      t.grant == grant && DispositionOf(RegimeOf(i), m.member, m.derivation, t) == disposition
  }

  lemma OffersSorted(i: Inputs, m: MemberState, grant: Grant)
    ensures var suspended := Classify(i.catalog, grant.scope) == Known(GlobalMutation) && Suspending(i);
            var impaired := m.derivation.lifecycle == Degraded && grant.verb in {Mutate, Administer};
            && (Disposes(i, m, grant, GrantedNow) <==> OffersInOrder(i, m, grant) && !suspended && !impaired)
            && (Disposes(i, m, grant, SuspendedNow) <==> OffersInOrder(i, m, grant) && suspended)
            && (Disposes(i, m, grant, WithheldNow) <==>
                OffersOutOfOrder(i, m, grant) || (OffersInOrder(i, m, grant) && impaired && !suspended))
  {
    hide Suspending, DispositionOf, RegimeOf, Classify, InOrder;
    forall t | t in m.derivation.delegatedTerms && t.grant == grant
      ensures var suspended := Classify(i.catalog, grant.scope) == Known(GlobalMutation) && Suspending(i);
              var impaired := m.derivation.lifecycle == Degraded && grant.verb in {Mutate, Administer};
              DispositionOf(RegimeOf(i), m.member, m.derivation, t) ==
              if !InOrder(i, m.member, m.derivation, t) then WithheldNow
              else if suspended then SuspendedNow else if impaired then WithheldNow else GrantedNow
    {
      DispositionExactly(i, m.member, m.derivation, t);
    }
  }

  lemma SettledExactly(i: Inputs, m: MemberState, grant: Grant)
    requires m == MemberOf(i, m.member)
    ensures grant in m.authority <==> Disposes(i, m, grant, GrantedNow)
    ensures grant in m.withheld <==> Disposes(i, m, grant, WithheldNow)
    ensures grant in m.withheldGlobal <==> Disposes(i, m, grant, SuspendedNow)
  {
    hide DispositionOf, RegimeOf, StateConflicts, DerivationOf, PartitionOf;
  }

  // ---- conflicts ------------------------------------------------------------

  /** A conflict shows at a member if and only if its own evidence conflicts or the
      federation's does and it is a party to that. */
  lemma ConflictsShownExactly(i: Inputs, m: MemberState, c: Conflict)
    requires MemberIn(i, m)
    ensures c in m.conflicts <==>
            c in m.derivation.conflicts || (c in StateConflicts(i) && m.member in c.claimants)
  {
    MembersAreSettled(i, m);
    hide RegimeOf, StateConflicts, DerivationOf, PartitionOf, GrantsWith, StateOf;
  }

  /** The federation's conflicts: several genesis records, and every withheld grant. */
  lemma FederationConflictsExactly(i: Inputs, c: Conflict)
    ensures c in StateConflicts(i) <==>
            || (|OfKind(Accepted(i), FederationGenesis)| > 1 && c.grant == NO_GRANT && c.kind == ConflictingIdentity &&
                forall m :: m in c.claimants <==>
                  exists a | a in Accepted(i) :: a.kind == FederationGenesis && a.subject == m)
            || (exists x | x in ClaimsIn(i) ::
                  DisputeOver(ClaimsIn(i), WorldOf(i).policy, x.terms.grant) == Withheld(c))
  {
    hide Accepted, ClaimsIn, WorldOf, DisputeOver;
    var records := OfKind(Accepted(i), FederationGenesis);
    var subjects := set a | a in records :: a.subject;
    assert forall m :: m in subjects <==> exists a | a in Accepted(i) :: a.kind == FederationGenesis && a.subject == m;
    if |records| > 1 && c.grant == NO_GRANT && c.kind == ConflictingIdentity &&
       forall m :: m in c.claimants <==> exists a | a in Accepted(i) :: a.kind == FederationGenesis && a.subject == m
    {
      assert c.claimants == subjects;
    }
  }

  // ---- the state as a whole -------------------------------------------------

  /** The highest epoch any accepted advance names, and one if none does. */
  ghost predicate HighestAdvance(accepted: seq<Artifact>, epoch: nat) {
    && 1 <= epoch && (forall a | a in accepted && a.kind == EpochAdvance :: a.body.epoch <= epoch)
    && (epoch == 1 || exists a | a in accepted :: a.kind == EpochAdvance && a.body.epoch == epoch)
  }

  /** The highest time any accepted artefact names, and no less than the tick given. */
  ghost predicate HighestTime(accepted: seq<Artifact>, tick: nat, time: nat) {
    && tick <= time && (forall a | a in accepted :: a.body.logicalTime <= time)
    && (time == tick || exists a | a in accepted :: a.body.logicalTime == time)
  }

  ghost predicate Named(i: Inputs, member: Id) {
    || (member != NIL && exists a | a in Accepted(i) :: a.subject == member)
    || (exists g :: OnlyGenesis(Accepted(i), g) && g.body.founder.constitution.member == member)
    || (member != NIL && exists l | l in i.leases :: l.holder.member == member)
  }

  /** The facts of a derived state: its epoch is the highest any accepted advance names, its
      time the highest any accepted artefact names, its policy the newest update's, and it
      lists every member that evidence, genesis or a lease names, and nobody else. */
  lemma StateExactly(i: Inputs, state: FederationState, member: Id)
    requires StateOf(i) == Some(state)
    ensures HighestAdvance(Accepted(i), state.epoch)
    ensures HighestTime(Accepted(i), i.logicalTime, state.logicalTime)
    ensures forall u | NewestUpdate(Accepted(i), u) :: state.policy == u.body.policy
    ensures (exists m | m in state.members :: m.member == member) <==> Named(i, member)
    ensures state.federation == i.federation && state.incarnation == i.incarnation && state.reconciling == IsReconciling(i)
  {
    hide *;
    StateFields(i, state);
    HighestExactly(i);
    NamedExactly(i, member);
    ListedExactly(i, state, member);
    AcceptedInOrder(i);
    forall u | NewestUpdate(Accepted(i), u) ensures EffectivePolicy(Accepted(i), i.policy) == u.body.policy {
      UpdateInForce(Accepted(i), i.policy, u);
    }
  }

  lemma AcceptedInOrder(i: Inputs)
    ensures ByEvidence(Accepted(i))
  {
  }

  lemma HighestExactly(i: Inputs)
    ensures HighestAdvance(Accepted(i), EpochOf(Accepted(i)))
    ensures HighestTime(Accepted(i), i.logicalTime, ClockOf(Accepted(i), i.logicalTime))
  {
    EpochIsLargestAdvance(Accepted(i));
    ClockIsLargestTime(Accepted(i), i.logicalTime);
    hide EpochOf, ClockOf, Accepted;
  }

  lemma NamedExactly(i: Inputs, member: Id)
    ensures member in WorldOf(i).members <==> Named(i, member)
  {
    MembersAreExactly(i, member);
    FounderExactly(Accepted(i), member);
    FounderIsGenesis(i);
    hide Accepted, WorldOf, OnlyGenesis, IsFounder, Founder;
  }

  lemma FounderIsGenesis(i: Inputs)
    ensures WorldOf(i).founder == Founder(Accepted(i))
  {
    hide Accepted, Founder, EffectivePolicy, MemberOrder;
  }

  lemma StateFields(i: Inputs, state: FederationState)
    requires StateOf(i) == Some(state)
    ensures state.epoch == EpochOf(Accepted(i)) && state.logicalTime == ClockOf(Accepted(i), i.logicalTime)
    ensures state.policy == EffectivePolicy(Accepted(i), i.policy) && state.reconciling == IsReconciling(i)
    ensures state.federation == i.federation && state.incarnation == i.incarnation
    ensures state.members == MembersIn(i, WorldOf(i).members) && WorldOf(i).founder == Founder(Accepted(i))
  {
    hide Accepted, EpochOf, ClockOf, EffectivePolicy, MemberOrder, IsReconciling, Founder, MembersIn, ViewsOf,
         StateConflicts, Ledger, PartitionOf;
  }

  lemma UpdateInForce(accepted: seq<Artifact>, configured: Policy, u: Artifact)
    requires ByEvidence(accepted) && NewestUpdate(accepted, u)
    ensures EffectivePolicy(accepted, configured) == u.body.policy
  {
    var v := NewestUpdateIsInForce(accepted, configured);
    hide EffectivePolicy, ByEvidence;
    assert u == v;
  }

  lemma FounderExactly(accepted: seq<Artifact>, member: Id)
    requires ByEvidence(accepted)
    ensures IsFounder(member, Founder(accepted)) <==>
            exists g :: OnlyGenesis(accepted, g) && g.body.founder.constitution.member == member
  {
    if Genesis(accepted).Some? {
      GenesisExactly(accepted, Genesis(accepted).value);
    }
    forall g | OnlyGenesis(accepted, g) ensures Founder(accepted) == Some(g.body.founder) {
      GenesisExactly(accepted, g);
    }
    hide Genesis, OnlyGenesis, ByEvidence;
  }

  lemma ListedExactly(i: Inputs, state: FederationState, member: Id)
    requires state.members == MembersIn(i, WorldOf(i).members)
    ensures (exists m | m in state.members :: m.member == member) <==> member in WorldOf(i).members
  {
    hide WorldOf, MemberOf;
    var order := WorldOf(i).members;
    forall k | 0 <= k < |order| ensures MembersIn(i, order)[k].member == order[k] {
      NamedAsAsked(i, order[k]);
    }
    if member in order {
      var k :| 0 <= k < |order| && order[k] == member;
      assert state.members[k] in state.members && state.members[k].member == member;
    }
  }
}
