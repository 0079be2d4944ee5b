// What the derived state guarantees, over all evidence and all policies.
module StateProperties {
  import opened Sequences
  import opened Scopes
  import opened Policies
  import opened Identities
  import opened Evidence
  import opened Membership
  import Standing
  import opened Partition
  import opened Leases
  import opened State

  // ---- permutation independence ---------------------------------------------

  /** The same inputs with the artefacts in another order, or repeated. */
  ghost predicate SameEvidence(i: Inputs, j: Inputs) {
    && j == i.(artifacts := j.artifacts)
    && forall a :: a in i.artifacts <==> a in j.artifacts
  }

  lemma SameAccepted(i: Inputs, j: Inputs)
    requires SameEvidence(i, j)
    ensures Accepted(i) == Accepted(j)
  {
    forall a ensures a in Accepted(i) <==> a in Accepted(j) {
      assert Acceptable(i, a) <==> Acceptable(j, a);
    }
    EvidenceOrderUnique(Accepted(i), Accepted(j));
  }

  lemma SameStandingDerivations(i: Inputs, j: Inputs)
    requires SameEvidence(i, j)
    ensures WorldOf(i) == WorldOf(j) && ActiveMembers(i) == ActiveMembers(j)
    ensures forall m :: StandingDerivation(i, m) == StandingDerivation(j, m)
  {
    SameAccepted(i, j);
    hide Accepted, EffectivePolicy, MemberOrder, Founder, EpochOf, Derive, Standing.Rounds, Standing.About, Filtered;
  }

  lemma SameFinalContext(i: Inputs, j: Inputs)
    requires SameEvidence(i, j)
    ensures PartitionOf(i) == PartitionOf(j) && IsReconciling(i) == IsReconciling(j)
    ensures FinalContext(i) == FinalContext(j)
    ensures forall m :: DerivationOf(i, m) == DerivationOf(j, m)
  {
    SameAccepted(i, j);
    SameStandingDerivations(i, j);
    hide Accepted, WorldOf, ActiveMembers, StandingDerivation, EpochOf, ClockOf, Derive, AssessmentOf, Recovery,
         ReconciliationRecorded, Standing.Established, Standing.About;
    assert Incarnations(i, ActiveMembers(i)) == Incarnations(j, ActiveMembers(j));
  }

  /** The derived state is a function of the set of artefacts: neither the order in
      which they arrived nor how often they were repeated shows in it. */
  lemma OrderOfEvidenceIsIrrelevant(i: Inputs, j: Inputs)
    requires SameEvidence(i, j)
    ensures StateOf(i) == StateOf(j)
  {
    SameAccepted(i, j);
    SameStandingDerivations(i, j);
    SameFinalContext(i, j);
    hide Accepted, WorldOf, PartitionOf, IsReconciling, DerivationOf, EpochOf, ClockOf, LiveClaims, GenesisConflicts,
         DisputeConflicts, Settled, Ledger, ViewsOf;
    var order := WorldOf(i).members;
    assert forall m :: Bare(i, m) == Bare(j, m);
    assert BareMembers(i, order) == BareMembers(j, order);
    assert RegimeOf(i) == RegimeOf(j) && StateConflicts(i) == StateConflicts(j);
    assert MembersIn(i, order) == MembersIn(j, order);
  }

  // ---- standing is stable ---------------------------------------------------

  /** The final derivation neither adds to nor removes from the fixpoint; it can only
      turn a member that stood as Active into Degraded. */
  lemma FinalStandingIsTheFixpoint(i: Inputs, member: Id)
    requires member in WorldOf(i).members
    ensures IsEstablished(DerivationOf(i, member).lifecycle) <==> member in Standing.Established(WorldOf(i))
    ensures var before, after := StandingDerivation(i, member).lifecycle, DerivationOf(i, member).lifecycle;
            after == before || (before == Active && after == Degraded)
  {
    var w := WorldOf(i);
    var about := Standing.About(w.accepted, member);
    EstablishedIffStanding(member, about, FinalContext(i));
    Standing.EstablishedIsFixpoint(w);
    Standing.DerivedLifecycle(member, about, FinalContext(i));
    var neutral := Standing.Neutral(w, EpochOf(w.accepted), Standing.Established(w), i.compatible);
    Standing.DerivedLifecycle(member, about, neutral);
    SuspensionOnlyDegrades(member, about, FinalContext(i), PartitionOf(i).state, IsReconciling(i));
    hide Derive, LifecycleOf, Membership.Standing, Standing.About, Standing.Rounds, EpochOf, Accepted, MemberOrder,
         EffectivePolicy, Founder, PartitionOf, IsReconciling;
    assert FinalContext(i).(partition := Connected, reconciling := false) == neutral;
    assert FinalContext(i).(partition := PartitionOf(i).state, reconciling := IsReconciling(i)) == FinalContext(i);
    assert member in Standing.Round(w, Standing.Established(w)) <==> Standing.Stands(w, member, Standing.Established(w));
  }

  /** A new accepted record about the federation as a whole. */
  ghost predicate Announces(i: Inputs, j: Inputs, record: Artifact) {
    && j == i.(artifacts := i.artifacts + [record])
    && record.subject == NIL && record.kind != FederationGenesis && record.kind != PolicyUpdate
    && (forall a | a in i.artifacts :: a.evidence != record.evidence)
    && record.federation == i.federation && i.valid(record)
  }

  lemma AcceptedGrowsByRecord(i: Inputs, j: Inputs, record: Artifact)
    requires Announces(i, j, record)
    ensures forall a :: a in Accepted(j) <==> a in Accepted(i) || a == record
  {
    forall a ensures a in Accepted(j) <==> a in Accepted(i) || a == record {
      assert Acceptable(j, a) <==> Acceptable(i, a) || a == record;
    }
  }

  lemma {:induction false} FilterKeepsOrder(s: seq<Artifact>, p: Artifact -> bool)
    requires ByEvidence(s)
    ensures ByEvidence(Filter(s, p))
  {
    if s != [] {
      FilterKeepsOrder(s[..|s| - 1], p);
      var front := Filter(s[..|s| - 1], p);
      assert forall k | 0 <= k < |front| :: front[k] in s[..|s| - 1];
    }
  }

  lemma AboutKeepsOrder(s: seq<Artifact>, member: Id)
    requires ByEvidence(s)
    ensures ByEvidence(Standing.About(s, member))
  {
    FilterKeepsOrder(s, (a: Artifact) => a.subject == member && a.subject != NIL);
    hide Filter, ByEvidence;
  }

  lemma OfKindKeepsOrder(s: seq<Artifact>, kind: Kind)
    requires ByEvidence(s)
    ensures ByEvidence(OfKind(s, kind))
  {
    FilterKeepsOrder(s, (a: Artifact) => a.kind == kind);
    hide Filter, ByEvidence;
  }

  lemma {:induction false} SubjectsAre(s: seq<Artifact>)
    ensures forall m :: m in Subjects(s) <==> m != NIL && exists a | a in s :: a.subject == m
  {
    if s != [] {
      SubjectsAre(s[..|s| - 1]);
      assert s == s[..|s| - 1] + [s[|s| - 1]];
    }
  }

  lemma {:induction false} HoldersAre(leases: seq<Lease>)
    ensures forall m :: m in Holders(leases) <==> m != NIL && exists l | l in leases :: l.holder.member == m
  {
    if leases != [] {
      HoldersAre(leases[..|leases| - 1]);
      assert leases == leases[..|leases| - 1] + [leases[|leases| - 1]];
    }
  }

  /** The accepted list grown by one federation-level record. */
  ghost predicate Grown(v: seq<Artifact>, w: seq<Artifact>, record: Artifact) {
    && ByEvidence(v) && ByEvidence(w)
    && record.subject == NIL && record.kind != FederationGenesis && record.kind != PolicyUpdate
    && forall a :: a in w <==> a in v || a == record
  }

  lemma SameAbout(v: seq<Artifact>, w: seq<Artifact>, record: Artifact, member: Id)
    requires Grown(v, w, record)
    ensures Standing.About(w, member) == Standing.About(v, member)
  {
    AboutKeepsOrder(v, member);
    AboutKeepsOrder(w, member);
    EvidenceOrderUnique(Standing.About(w, member), Standing.About(v, member));
  }

  lemma SameKind(v: seq<Artifact>, w: seq<Artifact>, record: Artifact, kind: Kind)
    requires Grown(v, w, record) && (kind == FederationGenesis || kind == PolicyUpdate)
    ensures OfKind(w, kind) == OfKind(v, kind)
  {
    OfKindKeepsOrder(v, kind);
    OfKindKeepsOrder(w, kind);
    EvidenceOrderUnique(OfKind(w, kind), OfKind(v, kind));
  }

  lemma SameOrder(v: seq<Artifact>, w: seq<Artifact>, record: Artifact, leases: seq<Lease>)
    requires Grown(v, w, record) && Founder(w) == Founder(v)
    ensures MemberOrder(w, leases) == MemberOrder(v, leases)
  {
    hide Founder, Holders;
    SubjectsAre(v);
    SubjectsAre(w);
    AscendingUnique(MemberOrder(w, leases), MemberOrder(v, leases));
  }

  /** Federation-level records show in nothing standing is computed from. */
  lemma SameGrounds(v: seq<Artifact>, w: seq<Artifact>, record: Artifact, policy: Policy, leases: seq<Lease>)
    requires Grown(v, w, record)
    ensures forall m :: Standing.About(w, m) == Standing.About(v, m)
    ensures Founder(w) == Founder(v)
    ensures EffectivePolicy(w, policy) == EffectivePolicy(v, policy)
    ensures MemberOrder(w, leases) == MemberOrder(v, leases)
  {
    hide Standing.About, OfKind, MemberOrder, Pick;
    forall m ensures Standing.About(w, m) == Standing.About(v, m) {
      SameAbout(v, w, record, m);
    }
    SameKind(v, w, record, FederationGenesis);
    SameKind(v, w, record, PolicyUpdate);
    SameOrder(v, w, record, leases);
  }

  lemma {:induction false} SameRounds(v: Standing.World, w: Standing.World, k: nat)
    requires w == v.(accepted := w.accepted)
    requires forall m :: Standing.About(w.accepted, m) == Standing.About(v.accepted, m)
    ensures Standing.Rounds(w, k) == Standing.Rounds(v, k)
  {
    hide Membership.Standing, Standing.About;
    if k > 0 {
      SameRounds(v, w, k - 1);
      var before := Standing.Rounds(v, k - 1);
      forall m ensures Standing.Stands(w, m, before) <==> Standing.Stands(v, m, before) {
        assert Standing.About(w.accepted, m) == Standing.About(v.accepted, m);
      }
    }
  }

  /** Advancing the epoch, like any other federation-level record, leaves standing
      exactly as it was, whatever epoch it names. */
  lemma AnnouncementsLeaveStandingAlone(i: Inputs, j: Inputs, record: Artifact)
    requires Announces(i, j, record)
    ensures Standing.Established(WorldOf(j)) == Standing.Established(WorldOf(i))
    ensures WorldOf(j).members == WorldOf(i).members
  {
    AcceptedGrowsByRecord(i, j, record);
    hide Accepted, Founder, EffectivePolicy, MemberOrder, Standing.About;
    SameGrounds(Accepted(i), Accepted(j), record, i.policy, i.leases);
    SameRounds(WorldOf(i), WorldOf(j), |WorldOf(i).members|);
  }

  // ---- the clock ------------------------------------------------------------

  /** A further artefact that will be accepted, whoever issued it. */
  ghost predicate Contributes(i: Inputs, j: Inputs, a: Artifact) {
    && j == i.(artifacts := i.artifacts + [a])
    && (forall b | b in i.artifacts :: b.evidence != a.evidence)
    && a.federation == i.federation && i.valid(a)
  }

  lemma AcceptedGrowsByOne(i: Inputs, j: Inputs, a: Artifact)
    requires Contributes(i, j, a)
    ensures forall x :: x in Accepted(j) <==> x in Accepted(i) || x == a
  {
    forall x ensures x in Accepted(j) <==> x in Accepted(i) || x == a {
      assert Acceptable(j, x) <==> Acceptable(i, x) || x == a;
    }
  }

  /** Every accepted artefact takes part in the clock, a member's as much as the
      coordinator's: federation time stays where it was exactly when the artefact does
      not name a later one. */
  lemma MembersMoveTheClockIff(i: Inputs, j: Inputs, a: Artifact)
    requires Contributes(i, j, a)
    ensures ClockOf(Accepted(j), j.logicalTime) == Max(ClockOf(Accepted(i), i.logicalTime), a.body.logicalTime)
    ensures ClockOf(Accepted(j), j.logicalTime) == ClockOf(Accepted(i), i.logicalTime) <==>
            a.body.logicalTime <= ClockOf(Accepted(i), i.logicalTime)
  {
    AcceptedGrowsByOne(i, j, a);
    ClockIsLargestTime(Accepted(i), i.logicalTime);
    ClockIsLargestTime(Accepted(j), j.logicalTime);
    hide Accepted, ClockOf;
    assert a in Accepted(j);
  }

  // ---- who is established ---------------------------------------------------

  /** Everybody whose derived lifecycle is Active, Degraded or Admitted is connected
      to the one founder by sponsors who each stood strictly earlier. */
  lemma EstablishedMembersAreSponsored(i: Inputs, member: Id) returns (chain: seq<Id>)
    requires member in WorldOf(i).members && IsEstablished(DerivationOf(i, member).lifecycle)
    ensures Standing.IsSponsorChain(WorldOf(i), chain) && chain[0] == member
  {
    FinalStandingIsTheFixpoint(i, member);
    chain := Standing.SponsorChainToFounder(WorldOf(i), member);
  }

  /** Without exactly one genesis record nobody is established at all. */
  lemma AmbiguousGenesisEstablishesNobody(i: Inputs, member: Id)
    requires |OfKind(Accepted(i), FederationGenesis)| != 1
    requires member in WorldOf(i).members
    ensures !IsEstablished(DerivationOf(i, member).lifecycle)
  {
    FinalStandingIsTheFixpoint(i, member);
    Standing.NobodyWithoutFounder(WorldOf(i));
  }

  // ---- conflict containment -------------------------------------------------

  ghost predicate MemberIn(i: Inputs, m: MemberState) {
    StateOf(i).Some? && m in StateOf(i).value.members
  }

  lemma NamedAsAsked(i: Inputs, member: Id)
    ensures MemberOf(i, member).member == member && MemberOf(i, member).derivation == DerivationOf(i, member)
  {
    hide RegimeOf, StateConflicts, GrantsWith, DerivationOf, PartitionOf;
  }

  lemma MembersAreSettled(i: Inputs, m: MemberState)
    requires MemberIn(i, m)
    ensures m.member in WorldOf(i).members && m == MemberOf(i, m.member)
  {
    hide WorldOf, MemberOf, PartitionOf, IsReconciling, StateConflicts, ViewsOf, Ledger, EpochOf, ClockOf;
    var order := WorldOf(i).members;
    assert StateOf(i).value.members == MembersIn(i, order);
    var k :| 0 <= k < |order| && MembersIn(i, order)[k] == m;
    NamedAsAsked(i, order[k]);
  }

  /** What holding a grant takes: a declared, delegable, current and undisputed term. */
  lemma HeldGrant(i: Inputs, m: MemberState, grant: Grant) returns (terms: Terms)
    requires MemberIn(i, m) && grant in m.authority
    ensures terms in m.derivation.delegatedTerms && terms.grant == grant
    ensures DispositionOf(RegimeOf(i), m.member, m.derivation, terms) == GrantedNow
    ensures m.derivation == DerivationOf(i, m.member)
  {
    MembersAreSettled(i, m);
    hide WorldOf, DerivationOf, RegimeOf, StateConflicts, DispositionOf, PartitionOf, StateOf;
    terms :| terms in m.derivation.delegatedTerms && terms.grant == grant &&
             DispositionOf(RegimeOf(i), m.member, m.derivation, terms) == GrantedNow;
  }

  lemma {:induction false} LiveClaimsContain(members: seq<MemberState>, m: MemberState, terms: Terms)
    requires m in members && HoldsFederationAuthority(m.derivation.lifecycle)
    requires terms in m.derivation.delegatedTerms
    ensures Claim(m.member, terms) in LiveClaims(members)
  {
    var front, last := members[..|members| - 1], members[|members| - 1];
    assert members == front + [last];
    if m == last {
      var k :| 0 <= k < |m.derivation.delegatedTerms| && m.derivation.delegatedTerms[k] == terms;
      assert TermClaims(m.member, m.derivation.delegatedTerms)[k] == Claim(m.member, terms);
    } else {
      LiveClaimsContain(front, m, terms);
    }
  }

  lemma BareMemberClaims(i: Inputs, member: Id, terms: Terms)
    requires member in WorldOf(i).members
    requires HoldsFederationAuthority(DerivationOf(i, member).lifecycle)
    requires terms in DerivationOf(i, member).delegatedTerms
    ensures Claim(member, terms) in ClaimsIn(i)
  {
    hide WorldOf, DerivationOf, PartitionOf;
    var order := WorldOf(i).members;
    var k :| 0 <= k < |order| && order[k] == member;
    assert BareMembers(i, order)[k] == Bare(i, member);
    LiveClaimsContain(BareMembers(i, order), Bare(i, member), terms);
  }

  /** Exactly when a term is granted, clause by clause. */
  lemma TermGrantedExactly(r: Regime, member: Id, d: Derivation, terms: Terms)
    ensures DispositionOf(r, member, d, terms) == GrantedNow <==>
            var class_ := Classify(r.catalog, terms.grant.scope);
            var dispute := DisputeOver(r.claims, r.policy, terms.grant);
            && class_.Known? && class_ != Known(Local)
            && !DelegationForbidden(r.policy, terms.grant.scope)
            && !GrantsCover(d.withdrawn, terms.grant)
            && (terms.notAfter == 0 || r.logicalTime <= terms.notAfter)
            && (dispute == Undisputed || dispute == WonBy(member))
            && HoldsFederationAuthority(d.lifecycle)
            && !(class_ == Known(GlobalMutation) && GlobalMutationSuspended(r))
            && !(d.lifecycle == Degraded && (terms.grant.verb == Mutate || terms.grant.verb == Administer))
  {
    hide DisputeOver, Classify, DelegationForbidden, GrantsCover, GlobalMutationSuspended;
  }

  lemma RegimeFields(i: Inputs)
    ensures var r := RegimeOf(i);
            && r.claims == ClaimsIn(i) && r.policy == WorldOf(i).policy && r.catalog == i.catalog
            && r.logicalTime == ClockOf(Accepted(i), i.logicalTime)
            && r.reconciling == IsReconciling(i) && r.partition == PartitionOf(i).state
  {
    hide ClaimsIn, WorldOf, ClockOf, Accepted, IsReconciling, PartitionOf;
  }

  /** A holder is itself a claimant, and the grant is not disputed away from it. */
  lemma HolderClaims(i: Inputs, m: MemberState, grant: Grant) returns (terms: Terms)
    requires MemberIn(i, m) && grant in m.authority
    ensures Claim(m.member, terms) in ClaimsIn(i) && terms.grant == grant
    ensures var dispute := DisputeOver(ClaimsIn(i), WorldOf(i).policy, grant);
            dispute == Undisputed || dispute == WonBy(m.member)
  {
    hide *;
    terms := HeldGrant(i, m, grant);
    MembersAreSettled(i, m);
    RegimeFields(i);
    TermGrantedExactly(RegimeOf(i), m.member, m.derivation, terms);
    BareMemberClaims(i, m.member, terms);
  }

  /** When two different members hold one grant, every live claim on it is shared and
      they all offer it on equivalent terms. */
  lemma CoHoldersAgree(i: Inputs, a: MemberState, b: MemberState, grant: Grant)
    requires MemberIn(i, a) && MemberIn(i, b) && a.member != b.member
    requires grant in a.authority && grant in b.authority
    ensures forall c | c in ClaimsOn(ClaimsIn(i), grant) :: c.terms.mode == Shared
    ensures forall c, d | c in ClaimsOn(ClaimsIn(i), grant) && d in ClaimsOn(ClaimsIn(i), grant) ::
              Equivalent(c.terms, d.terms)
  {
    var ta := HolderClaims(i, a, grant);
    var tb := HolderClaims(i, b, grant);
    hide WorldOf, ClaimsIn, StateOf;
    var group := ClaimsOn(ClaimsIn(i), grant);
    assert FirstDisagreement(group, 1).None?;
    UndisputedMeansAllAgree(group);
    AgreeingGroup(group, Claim(a.member, ta), Claim(b.member, tb));
  }

  lemma AgreeingGroup(group: seq<Claim>, one: Claim, other: Claim)
    requires one in group && other in group && one != other
    requires forall j, k | 0 <= j < k < |group| :: Disagreement(group[j].terms, group[k].terms).None?
    ensures forall c | c in group :: c.terms.mode == Shared
    ensures forall c, d | c in group && d in group :: Equivalent(c.terms, d.terms)
  {
    var m :| 0 <= m < |group| && group[m] == one;
    var n :| 0 <= n < |group| && group[n] == other;
    forall k | 0 <= k < |group| ensures group[k].terms.mode == Shared {
      var l := if k == m then n else m;
      assert Disagreement(group[if k < l then k else l].terms, group[if k < l then l else k].terms).None?;
    }
    forall j, k | 0 <= j < |group| && 0 <= k < |group| ensures Equivalent(group[j].terms, group[k].terms) {
      if j != k {
        assert Disagreement(group[if j < k then j else k].terms, group[if j < k then k else j].terms).None?;
      }
    }
  }

  /** An exclusive live claim leaves room for one holder. */
  lemma ExclusiveClaimHasOneHolder(i: Inputs, a: MemberState, b: MemberState, claim: Claim)
    requires MemberIn(i, a) && MemberIn(i, b)
    requires claim in ClaimsIn(i) && claim.terms.mode == Exclusive
    requires claim.terms.grant in a.authority && claim.terms.grant in b.authority
    ensures a.member == b.member
  {
    if a.member != b.member {
      hide ClaimsIn, StateOf;
      assert claim in ClaimsOn(ClaimsIn(i), claim.terms.grant);
      CoHoldersAgree(i, a, b, claim.terms.grant);
    }
  }

  /** Configured precedence awards a disputed grant to nobody but the one claimant it
      names; without that, a disputed grant is held by nobody. */
  lemma DisputedGrantHasOnlyTheNamedHolder(i: Inputs, m: MemberState, grant: Grant)
    requires MemberIn(i, m) && grant in m.authority
    requires FirstDisagreement(ClaimsOn(ClaimsIn(i), grant), 1).Some?
    ensures var precedence := Precedence(WorldOf(i).policy.rules, grant);
            var claimants := Claimants(ClaimsOn(ClaimsIn(i), grant));
            precedence.Some? && Ordered(precedence.value, claimants) == [m.member]
  {
    var terms := HolderClaims(i, m, grant);
    DisputeResolved(ClaimsOn(ClaimsIn(i), grant), WorldOf(i).policy, grant, m.member);
  }

  lemma DisputeResolved(group: seq<Claim>, policy: Policy, grant: Grant, member: Id)
    requires FirstDisagreement(group, 1).Some?
    requires DisputeAmong(group, policy, grant) == Undisputed || DisputeAmong(group, policy, grant) == WonBy(member)
    ensures Precedence(policy.rules, grant).Some?
    ensures Ordered(Precedence(policy.rules, grant).value, Claimants(group)) == [member]
  {
    hide Precedence, Ordered, Claimants, FirstDisagreement;
  }

  // ---- global mutation ------------------------------------------------------

  /** While the effective policy suspends global mutation and the federation is
      reconciling, split or cannot tell, nobody holds a global-mutation grant. */
  lemma SuspensionIsTotal(i: Inputs, m: MemberState, grant: Grant)
    requires MemberIn(i, m) && grant in m.authority
    requires GlobalMutationSuspended(RegimeOf(i))
    ensures Classify(i.catalog, grant.scope) != Known(GlobalMutation)
  {
    var terms := HeldGrant(i, m, grant);
    TermGrantedExactly(RegimeOf(i), m.member, m.derivation, terms);
    RegimeFields(i);
    hide *;
  }

  /** Everything held is a catalogued scope outside local authority, and therefore
      covers only itself. */
  lemma HeldGrantsAreConcrete(i: Inputs, m: MemberState)
    requires MemberIn(i, m)
    ensures forall g | g in m.authority :: Classify(i.catalog, g.scope).Known? && Classify(i.catalog, g.scope) != Known(Local)
    ensures forall query :: GrantsCover(m.authority, query) <==> query in m.authority
  {
    forall g | g in m.authority
      ensures Classify(i.catalog, g.scope).Known? && Classify(i.catalog, g.scope) != Known(Local)
    {
      var terms := HeldGrant(i, m, g);
      TermGrantedExactly(RegimeOf(i), m.member, m.derivation, terms);
      RegimeFields(i);
    }
    forall query ensures GrantsCover(m.authority, query) <==> query in m.authority {
      ClassifiedGrantsCoverOnlyThemselves(i.catalog, m.authority, query);
    }
  }
}
