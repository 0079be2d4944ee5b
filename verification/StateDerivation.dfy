// src/state.cpp, prepare_artifacts and derive_state: the loops, proved to compute
// State.StateOf. Stages the source writes one after another in a single function
// are methods here.
module StateDerivation {
  import opened Sequences
  import opened Scopes
  import opened Policies
  import opened Identities
  import opened Evidence
  import opened Membership
  import opened MembershipDerivation
  import Standing
  import opened Partition
  import opened PartitionAssessment
  import opened Leases
  import opened State

  // ---- preparing the evidence -----------------------------------------------

  /** The first copy of each identifier, and the identifiers whose copies differ. */
  ghost predicate Indexes(byId: map<Id, Artifact>, quarantined: set<Id>, artifacts: seq<Artifact>) {
    && (forall e | e in byId :: byId[e] in artifacts && byId[e].evidence == e)
    && (forall a | a in artifacts :: a.evidence in byId)
    && (forall a | a in artifacts :: a != byId[a.evidence] ==> a.evidence in quarantined)
    && (forall e | e in quarantined :: exists a | a in artifacts :: a.evidence == e && e in byId && a != byId[e])
  }

  lemma NothingIndexed()
    ensures Indexes(map[], {}, [])
  {
  }

  lemma IndexedNext(byId: map<Id, Artifact>, quarantined: set<Id>, seen: seq<Artifact>, a: Artifact)
    requires Indexes(byId, quarantined, seen)
    ensures a.evidence !in byId ==> Indexes(byId[a.evidence := a], quarantined, seen + [a])
    ensures a.evidence in byId && byId[a.evidence] == a ==> Indexes(byId, quarantined, seen + [a])
    ensures a.evidence in byId && byId[a.evidence] != a ==> Indexes(byId, quarantined + {a.evidence}, seen + [a])
  {
    var all := seen + [a];
    assert forall x :: x in all <==> x in seen || x == a;
  }

  method IndexEvidence(artifacts: seq<Artifact>)
    returns (byId: map<Id, Artifact>, quarantined: set<Id>, duplicates: nat)
    ensures Indexes(byId, quarantined, artifacts)
    ensures duplicates == |artifacts| - |byId|
  {
    byId, quarantined, duplicates := map[], {}, 0;
    NothingIndexed();
    assert artifacts[..0] == [];
    hide Indexes;
    for i := 0 to |artifacts|
      invariant Indexes(byId, quarantined, artifacts[..i])
      invariant duplicates == i - |byId|
    {
      var artifact := artifacts[i];
      IndexedNext(byId, quarantined, artifacts[..i], artifact);
      assert artifacts[..i + 1] == artifacts[..i] + [artifact];
      if artifact.evidence !in byId {
        byId := byId[artifact.evidence := artifact];
        continue;
      }
      duplicates := duplicates + 1;
      // Equal digests mean equal content.
      if byId[artifact.evidence] == artifact {
        continue;
      }
      quarantined := quarantined + {artifact.evidence};
    }
    assert artifacts[..|artifacts|] == artifacts;
  }

  /** src/state.cpp:378-444. */
  method PrepareArtifacts(i: Inputs) returns (accepted: seq<Artifact>, duplicates: nat)
    ensures accepted == Accepted(i)
  {
    var byId, quarantined;
    byId, quarantined, duplicates := IndexEvidence(i.artifacts);
    var kept: seq<Artifact> := [];
    var remaining := byId.Keys;
    while remaining != {}
      invariant remaining <= byId.Keys
      invariant forall a :: a in kept <==>
                  a in i.artifacts && a.evidence !in remaining && a.evidence !in quarantined &&
                  byId[a.evidence] == a && a.federation == i.federation && i.valid(a)
      decreases remaining
    {
      var e :| e in remaining;
      remaining := remaining - {e};
      if e in quarantined {
        continue;
      }
      var artifact := byId[e];
      if artifact.federation != i.federation {
        continue;
      }
      if !i.valid(artifact) {
        continue;
      }
      kept := kept + [artifact];
    }
    forall a ensures a in kept <==> Acceptable(i, a) {
      if a in i.artifacts && a.evidence !in quarantined {
        assert forall b | b in i.artifacts && b.evidence == a.evidence :: b == byId[a.evidence];
      }
    }
    accepted := SortByEvidence(kept);
    EvidenceOrderUnique(accepted, Accepted(i));
  }

  // ---- genesis, policy, epoch, clock, reconciliation ------------------------

  method FindGenesis(accepted: seq<Artifact>) returns (genesis: Option<Artifact>, conflicts: set<Conflict>)
    ensures genesis == Genesis(accepted)
    ensures conflicts == GenesisConflicts(accepted)
  {
    var records: seq<Artifact> := [];
    for i := 0 to |accepted|
      invariant records == OfKind(accepted[..i], FederationGenesis)
    {
      assert accepted[..i + 1][..i] == accepted[..i];
      if accepted[i].kind == FederationGenesis {
        records := records + [accepted[i]];
      }
    }
    assert accepted[..|accepted|] == accepted;
    genesis, conflicts := None, {};
    if |records| == 1 {
      genesis := Some(records[0]);
    } else if |records| > 1 {
      conflicts := {Conflict(NO_GRANT, ConflictingIdentity, set a | a in records :: a.subject)};
    }
  }

  method ChoosePolicy(accepted: seq<Artifact>, configured: Policy, genesis: Option<Artifact>)
    returns (policy: Policy)
    requires genesis == Genesis(accepted)
    ensures policy == EffectivePolicy(accepted, configured)
  {
    var newest: Option<Artifact> := None;
    for i := 0 to |accepted|
      invariant newest == Pick(OfKind(accepted[..i], PolicyUpdate), NewerPolicy)
    {
      var artifact := accepted[i];
      assert accepted[..i + 1][..i] == accepted[..i];
      ghost var before, after := OfKind(accepted[..i], PolicyUpdate), OfKind(accepted[..i + 1], PolicyUpdate);
      if artifact.kind != PolicyUpdate {
        assert after == before;
        continue;
      }
      assert after == before + [artifact] && after[..|before|] == before;
      if newest.None? || newest.value.body.policyGeneration < artifact.body.policyGeneration ||
         (newest.value.body.policyGeneration == artifact.body.policyGeneration &&
          artifact.evidence < newest.value.evidence) {
        newest := Some(artifact);
      }
    }
    assert accepted[..|accepted|] == accepted;
    policy := configured;
    if newest.Some? {
      policy := newest.value.body.policy;
    } else if genesis.Some? {
      policy := genesis.value.body.policy;
    }
  }

  method EpochAndClock(accepted: seq<Artifact>, start: nat) returns (epoch: nat, clock: nat, advances: seq<Artifact>)
    ensures epoch == EpochOf(accepted) && clock == ClockOf(accepted, start)
    ensures advances == OfKind(accepted, EpochAdvance)
  {
    epoch, clock, advances := 1, start, [];
    for i := 0 to |accepted|
      invariant epoch == EpochOf(accepted[..i]) && clock == ClockOf(accepted[..i], start)
      invariant advances == OfKind(accepted[..i], EpochAdvance)
    {
      var artifact := accepted[i];
      assert accepted[..i + 1][..i] == accepted[..i];
      if artifact.kind == EpochAdvance {
        advances := advances + [artifact];
        if artifact.body.epoch > epoch {
          epoch := artifact.body.epoch;
        }
      }
      if artifact.body.logicalTime > clock {
        clock := artifact.body.logicalTime;
      }
    }
    assert accepted[..|accepted|] == accepted;
  }

  lemma RecoveriesAmongAdvances(accepted: seq<Artifact>)
    ensures Filter(OfKind(accepted, EpochAdvance), RecoversFromPartition) == Filter(accepted, RecoversFromPartition)
  {
    FilterOfFilter(accepted, (a: Artifact) => a.kind == EpochAdvance, RecoversFromPartition);
  }

  /** The latest recovery among the advances seen so far. */
  ghost function LatestRecovery(advances: seq<Artifact>): Option<Artifact> {
    Pick(Filter(advances, RecoversFromPartition), HigherFenceEpoch)
  }

  lemma LatestRecoveryStep(advances: seq<Artifact>, i: nat)
    requires i < |advances|
    ensures var latest, next := LatestRecovery(advances[..i]), advances[i];
            LatestRecovery(advances[..i + 1]) ==
            if RecoversFromPartition(next) && (latest.None? || next.body.epoch > latest.value.body.epoch)
            then Some(next) else latest
    ensures LatestRecovery(advances[..0]).None?
  {
    PickFilterStep(advances, RecoversFromPartition, HigherFenceEpoch, i);
    assert advances[..0] == [];
    hide Pick;
  }

  lemma RecoveryAmongAdvances(accepted: seq<Artifact>)
    ensures var advances := OfKind(accepted, EpochAdvance);
            Recovery(accepted) == LatestRecovery(advances) && forall a | a in advances :: a.kind == EpochAdvance
    ensures LatestRecovery([]).None?
  {
    RecoveriesAmongAdvances(accepted);
    hide Pick;
  }

  /** src/state.cpp:595-605. */
  method FindRecovery(accepted: seq<Artifact>, advances: seq<Artifact>) returns (needed: bool, recoveryEpoch: nat)
    requires advances == OfKind(accepted, EpochAdvance)
    ensures needed == Recovery(accepted).Some?
    ensures needed ==> recoveryEpoch == Recovery(accepted).value.body.epoch
  {
    hide Recovery, LatestRecovery, OfKind;
    RecoveryAmongAdvances(accepted);
    needed, recoveryEpoch := false, 0;
    assert advances[..0] == [];
    for i := 0 to |advances|
      invariant var latest := LatestRecovery(advances[..i]);
                needed == latest.Some? && (needed ==> recoveryEpoch == latest.value.body.epoch)
    {
      var advance := advances[i];
      LatestRecoveryStep(advances, i);
      assert advance.kind == EpochAdvance;
      if advance.body.reason == AfterSplit || advance.body.reason == AfterIndeterminate {
        if !needed || recoveryEpoch < advance.body.epoch {
          needed, recoveryEpoch := true, advance.body.epoch;
        }
      }
    }
    assert advances[..|advances|] == advances;
  }

  /** src/state.cpp:606-614. */
  method FindReconciliation(accepted: seq<Artifact>, needed: bool, recoveryEpoch: nat) returns (recorded: bool)
    requires needed == Recovery(accepted).Some?
    requires needed ==> recoveryEpoch == Recovery(accepted).value.body.epoch
    ensures recorded == ReconciliationRecorded(accepted)
  {
    hide Recovery;
    recorded := false;
    if needed {
      for i := 0 to |accepted|
        invariant recorded <==> exists a | a in accepted[..i] ::
                    a.kind == ReconciliationComplete && a.body.epoch >= recoveryEpoch
      {
        assert accepted[..i + 1] == accepted[..i] + [accepted[i]];
        if accepted[i].kind == ReconciliationComplete && accepted[i].body.epoch >= recoveryEpoch {
          recorded := true;
        }
      }
      assert accepted[..|accepted|] == accepted;
    }
  }

  // ---- members --------------------------------------------------------------

  /** Each bucket present holds the member's artefacts; a member without one has none. */
  ghost predicate Buckets(byMember: map<Id, seq<Artifact>>, accepted: seq<Artifact>) {
    forall m :: Standing.About(accepted, m) == if m in byMember then byMember[m] else []
  }

  lemma BucketsStep(byMember: map<Id, seq<Artifact>>, accepted: seq<Artifact>, artifact: Artifact)
    requires Buckets(byMember, accepted)
    ensures artifact.subject == NIL ==> Buckets(byMember, accepted + [artifact])
    ensures artifact.subject != NIL ==>
              var bucket := if artifact.subject in byMember then byMember[artifact.subject] else [];
              Buckets(byMember[artifact.subject := bucket + [artifact]], accepted + [artifact])
  {
    assert (accepted + [artifact])[..|accepted|] == accepted;
  }

  lemma EmptyBucket(byMember: map<Id, seq<Artifact>>, accepted: seq<Artifact>, member: Id)
    requires Buckets(byMember, accepted) && member !in byMember
    ensures Buckets(byMember[member := []], accepted)
  {
  }

  /** src/state.cpp:634-643. */
  method IndexSubjects(accepted: seq<Artifact>) returns (byMember: map<Id, seq<Artifact>>, order: seq<Id>)
    ensures order == Subjects(accepted)
    ensures forall m | m in order :: m in byMember
    ensures Buckets(byMember, accepted)
  {
    byMember, order := map[], [];
    assert Buckets(byMember, []);
    for i := 0 to |accepted|
      invariant order == Subjects(accepted[..i])
      invariant forall m | m in order :: m in byMember
      invariant Buckets(byMember, accepted[..i])
    {
      hide Buckets;
      var artifact := accepted[i];
      assert accepted[..i + 1][..i] == accepted[..i];
      assert accepted[..i + 1] == accepted[..i] + [artifact];
      BucketsStep(byMember, accepted[..i], artifact);
      if artifact.subject == NIL {
        continue;
      }
      var bucket := if artifact.subject in byMember then byMember[artifact.subject] else [];
      byMember := byMember[artifact.subject := bucket + [artifact]];
      order := order + [artifact.subject];
    }
    assert accepted[..|accepted|] == accepted;
  }

  /** src/state.cpp:648-653. */
  method IndexHolders(accepted: seq<Artifact>, leases: seq<Lease>, byMember: map<Id, seq<Artifact>>, order: seq<Id>)
    returns (byMember': map<Id, seq<Artifact>>, order': seq<Id>)
    requires Buckets(byMember, accepted)
    requires forall m | m in order :: m in byMember
    ensures order' == order + Holders(leases)
    ensures forall m | m in order' :: m in byMember'
    ensures Buckets(byMember', accepted)
  {
    hide Buckets;
    byMember', order' := byMember, order;
    for i := 0 to |leases|
      invariant order' == order + Holders(leases[..i])
      invariant forall m | m in order' :: m in byMember'
      invariant Buckets(byMember', accepted)
    {
      assert leases[..i + 1][..i] == leases[..i];
      var holder := leases[i].holder.member;
      if holder != NIL {
        if holder !in byMember' {
          EmptyBucket(byMember', accepted, holder);
          byMember' := byMember'[holder := []];
        }
        order' := order' + [holder];
      }
    }
    assert leases[..|leases|] == leases;
  }

  /** src/state.cpp:633-654. */
  method IndexMembers(accepted: seq<Artifact>, genesis: Option<Artifact>, leases: seq<Lease>)
    returns (byMember: map<Id, seq<Artifact>>, order: seq<Id>)
    requires genesis == Genesis(accepted)
    ensures order == MemberOrder(accepted, leases)
    ensures forall m | m in order :: m in byMember && byMember[m] == Standing.About(accepted, m)
  {
    hide Standing.About, Genesis, Subjects, Holders;
    byMember, order := IndexSubjects(accepted);
    if genesis.Some? {
      var founder := genesis.value.body.founder.constitution.member;
      if founder !in byMember {
        EmptyBucket(byMember, accepted, founder);
        byMember := byMember[founder := []];
      }
      order := order + [founder];
    }
    assert Subjects(accepted) + [] == Subjects(accepted);
    byMember, order := IndexHolders(accepted, leases, byMember, order);
    order := SortUnique(order);
  }

  // ---- reconcile clearance --------------------------------------------------

  /** src/state.cpp:738-759. */
  method Clear(active: seq<Id>, derivations: map<Id, Derivation>, needed: bool, recorded: bool)
    returns (reconciling: bool)
    requires forall m | m in active :: m in derivations
    ensures reconciling <==> needed && !(recorded && forall m | m in active :: derivations[m].hasReattestation)
  {
    reconciling := needed;
    if reconciling && recorded {
      var allReattested := true;
      for k := 0 to |active|
        invariant allReattested <==> forall m | m in active[..k] :: derivations[m].hasReattestation
      {
        assert active[..k + 1] == active[..k] + [active[k]];
        if !derivations[active[k]].hasReattestation {
          allReattested := false;
          break;
        }
      }
      assert active[..|active|] == active;
      if allReattested {
        reconciling := false;
      }
    }
  }

  // ---- claims and disputes --------------------------------------------------

  /** src/state.cpp:821-831. */
  method CollectClaims(members: seq<MemberState>) returns (claims: seq<Claim>)
    ensures claims == LiveClaims(members)
  {
    claims := [];
    for i := 0 to |members|
      invariant claims == LiveClaims(members[..i])
    {
      var member := members[i];
      assert members[..i + 1][..i] == members[..i];
      if !HoldsFederationAuthority(member.derivation.lifecycle) {
        continue;
      }
      ghost var before := claims;
      var terms := member.derivation.delegatedTerms;
      for j := 0 to |terms|
        invariant claims == before + TermClaims(member.member, terms[..j])
      {
        assert terms[..j + 1][..j] == terms[..j];
        claims := claims + [Claim(member.member, terms[j])];
      }
      assert terms[..|terms|] == terms;
    }
    assert members[..|members|] == members;
  }

  lemma NothingClaimed()
    ensures GrantsClaimed([]) == {} && forall g :: ClaimsOn([], g) == []
  {
  }

  lemma OneMoreClaim(claims: seq<Claim>, claim: Claim)
    ensures GrantsClaimed(claims + [claim]) == GrantsClaimed(claims) + {claim.terms.grant}
    ensures forall g :: ClaimsOn(claims + [claim], g) ==
                        ClaimsOn(claims, g) + (if g == claim.terms.grant then [claim] else [])
  {
    forall g ensures ClaimsOn(claims + [claim], g) == ClaimsOn(claims, g) + (if g == claim.terms.grant then [claim] else []) {
      assert (claims + [claim])[..|claims|] == claims;
    }
    assert forall c :: c in claims + [claim] <==> c in claims || c == claim;
  }

  /** src/state.cpp:834-837. */
  method GroupClaims(claims: seq<Claim>) returns (byGrant: map<Grant, seq<Claim>>)
    ensures byGrant.Keys == GrantsClaimed(claims)
    ensures forall g | g in byGrant :: byGrant[g] == ClaimsOn(claims, g)
  {
    hide ClaimsOn, GrantsClaimed;
    byGrant := map[];
    NothingClaimed();
    assert claims[..0] == [];
    for i := 0 to |claims|
      invariant byGrant.Keys == GrantsClaimed(claims[..i])
      invariant forall g :: ClaimsOn(claims[..i], g) == if g in byGrant then byGrant[g] else []
    {
      var claim := claims[i];
      assert claims[..i + 1] == claims[..i] + [claim];
      OneMoreClaim(claims[..i], claim);
      var group := if claim.terms.grant in byGrant then byGrant[claim.terms.grant] else [];
      byGrant := byGrant[claim.terms.grant := group + [claim]];
    }
    assert claims[..|claims|] == claims;
  }

  lemma {:induction false} NobodyClaims(claims: seq<Claim>, grant: Grant)
    requires grant !in GrantsClaimed(claims)
    ensures ClaimsOn(claims, grant) == []
  {
    if claims != [] {
      var front, last := claims[..|claims| - 1], claims[|claims| - 1];
      assert claims == front + [last];
      NobodyClaims(front, grant);
      assert last.terms.grant in GrantsClaimed(claims);
    }
  }

  /** src/state.cpp:847-867: every pair is compared until one disagrees. */
  method FindConflict(group: seq<Claim>) returns (kind: Option<ConflictKind>)
    ensures kind == FirstDisagreement(group, 1)
  {
    for i := 0 to |group|
      invariant i > 0 ==> FirstDisagreement(group, 1).None?
    {
      for j := i + 1 to |group|
        invariant i == 0 ==> FirstDisagreement(group, 1) == FirstDisagreement(group, j)
      {
        var a, b := group[i].terms, group[j].terms;
        if i > 0 {
          UndisputedMeansAllAgree(group);
        }
        if a.mode != b.mode {
          return Some(ModeMismatch);
        } else if a.mode == Exclusive {
          return Some(OverlappingExclusive);
        } else if !Equivalent(a, b) {
          return Some(AmbiguousPrecedence);
        }
      }
    }
    return None;
  }

  /** src/state.cpp:876-906 for one disputed group. */
  method Settle(group: seq<Claim>, policy: Policy, grant: Grant) returns (dispute: Dispute)
    ensures dispute == DisputeAmong(group, policy, grant)
  {
    if |group| < 2 {
      return Undisputed;
    }
    var kind := FindConflict(group);
    if kind.None? {
      return Undisputed;
    }
    var claimants := set c | c in group :: c.member;
    var precedence := PrecedenceFor(policy, grant);
    if precedence.Some? {
      var matching: seq<Id> := [];
      for k := 0 to |precedence.value|
        invariant matching == Ordered(precedence.value[..k], claimants)
      {
        assert precedence.value[..k + 1][..k] == precedence.value[..k];
        if precedence.value[k] in claimants {
          matching := matching + [precedence.value[k]];
        }
      }
      assert precedence.value[..|precedence.value|] == precedence.value;
      if |matching| == 1 {
        return WonBy(matching[0]);
      }
      return Withheld(Conflict(grant, PrecedenceUnsatisfiable, claimants));
    }
    return Withheld(Conflict(grant, kind.value, claimants));
  }

  /** src/state.cpp:839-907. */
  method DetectConflicts(claims: seq<Claim>, policy: Policy)
    returns (conflicted: set<Grant>, winners: map<Grant, Id>, conflicts: set<Conflict>)
    ensures forall g :: g in conflicted <==> DisputeOver(claims, policy, g).Withheld?
    ensures forall g :: g in winners <==> DisputeOver(claims, policy, g).WonBy?
    ensures forall g | g in winners :: DisputeOver(claims, policy, g) == WonBy(winners[g])
    ensures conflicts == DisputeConflicts(claims, policy)
  {
    var byGrant := GroupClaims(claims);
    forall g | g !in byGrant ensures DisputeOver(claims, policy, g) == Undisputed {
      NobodyClaims(claims, g);
    }
    hide DisputeAmong, ClaimsOn;
    conflicted, winners, conflicts := {}, map[], {};
    var remaining := byGrant.Keys;
    while remaining != {}
      invariant remaining <= byGrant.Keys
      invariant forall g :: g in conflicted <==> g !in remaining && DisputeOver(claims, policy, g).Withheld?
      invariant forall g :: g in winners <==> g !in remaining && DisputeOver(claims, policy, g).WonBy?
      invariant forall g | g in winners :: DisputeOver(claims, policy, g) == WonBy(winners[g])
      invariant conflicts == set g | g in byGrant && g !in remaining && DisputeOver(claims, policy, g).Withheld?
                               :: DisputeOver(claims, policy, g).conflict
      decreases remaining
    {
      var grant :| grant in remaining;
      remaining := remaining - {grant};
      var dispute := Settle(byGrant[grant], policy, grant);
      assert dispute == DisputeOver(claims, policy, grant);
      match dispute {
        case Undisputed =>
        case WonBy(member) => winners := winners[grant := member];
        case Withheld(conflict) =>
          conflicts := conflicts + {conflict};
          conflicted := conflicted + {grant};
      }
    }
  }

  // ---- effective authority --------------------------------------------------

  /** src/state.cpp:910-1014 for one member. */
  method EffectiveAuthority(member: MemberState, ghost r: Regime, catalog: Catalog, policy: Policy,
                            logicalTime: nat, reconciling: bool, partition: PartitionState,
                            conflicted: set<Grant>, winners: map<Grant, Id>, needsReactivation: bool)
    returns (granted: set<Grant>, withheld: set<Grant>, withheldGlobal: set<Grant>)
    requires r == Regime(catalog, policy, logicalTime, reconciling, partition, r.claims)
    requires forall g :: g in conflicted <==> DisputeOver(r.claims, policy, g).Withheld?
    requires forall g :: g in winners <==> DisputeOver(r.claims, policy, g).WonBy?
    requires forall g | g in winners :: DisputeOver(r.claims, policy, g) == WonBy(winners[g])
    ensures granted == GrantsWith(r, member.member, member.derivation, member.derivation.delegatedTerms, GrantedNow)
    ensures withheld == GrantsWith(r, member.member, member.derivation, member.derivation.delegatedTerms, WithheldNow)
    ensures withheldGlobal == GrantsWith(r, member.member, member.derivation, member.derivation.delegatedTerms, SuspendedNow)
  {
    hide DisputeOver, Classify, DelegationForbidden, CoveredByWithdrawal, SuspendsOnPartition, SuspendsWhileReconciling;
    var d := member.derivation;
    granted, withheld, withheldGlobal := {}, {}, {};
    var holds := HoldsFederationAuthority(d.lifecycle) && !(needsReactivation && d.lifecycle == Admitted);
    for k := 0 to |d.delegatedTerms|
      invariant granted == GrantsWith(r, member.member, d, d.delegatedTerms[..k], GrantedNow)
      invariant withheld == GrantsWith(r, member.member, d, d.delegatedTerms[..k], WithheldNow)
      invariant withheldGlobal == GrantsWith(r, member.member, d, d.delegatedTerms[..k], SuspendedNow)
    {
      var terms := d.delegatedTerms[k];
      var grant := terms.grant;
      forall disposition {
        GrantsWithStep(r, member.member, d, d.delegatedTerms, disposition, k);
      }
      hide GrantsWith;
      var class_ := Classify(catalog, grant.scope);
      if class_.Unknown? || class_.class_ == Local {
        withheld := withheld + {grant};
        continue;
      }
      if DelegationForbidden(policy, grant.scope) {
        withheld := withheld + {grant};
        continue;
      }
      if CoveredByWithdrawal(d.withdrawn, grant) {
        withheld := withheld + {grant};
        continue;
      }
      if terms.notAfter != 0 && logicalTime > terms.notAfter {
        withheld := withheld + {grant};
        continue;
      }
      if grant in conflicted {
        withheld := withheld + {grant};
        continue;
      }
      if grant in winners && winners[grant] != member.member {
        withheld := withheld + {grant};
        continue;
      }
      if !holds {
        withheld := withheld + {grant};
        continue;
      }
      if class_.class_ == GlobalMutation {
        var suspended := (reconciling && SuspendsWhileReconciling(policy)) ||
                         ((partition == Split || partition == Indeterminate) && SuspendsOnPartition(policy));
        if suspended {
          withheldGlobal := withheldGlobal + {grant};
          continue;
        }
      }
      if d.lifecycle == Degraded && (grant.verb == Mutate || grant.verb == Administer) {
        withheld := withheld + {grant};
        continue;
      }
      granted := granted + {grant};
    }
    assert d.delegatedTerms[..|d.delegatedTerms|] == d.delegatedTerms;
  }

  lemma GrantsWithStep(r: Regime, member: Id, d: Derivation, terms: seq<Terms>, disposition: Disposition, k: nat)
    requires k < |terms|
    ensures GrantsWith(r, member, d, terms[..k + 1], disposition) ==
            GrantsWith(r, member, d, terms[..k], disposition) +
            (if DispositionOf(r, member, d, terms[k]) == disposition then {terms[k].grant} else {})
  {
    assert terms[..k + 1] == terms[..k] + [terms[k]];
  }

  // ---- assembling the state -------------------------------------------------

  /** src/state.cpp:774-819: the final derivation of every member. */
  method DeriveMembers(i: Inputs, order: seq<Id>, byMember: map<Id, seq<Artifact>>, context: Context)
    returns (members: seq<MemberState>)
    requires order == WorldOf(i).members && context == FinalContext(i)
    requires forall m | m in order :: m in byMember && byMember[m] == Standing.About(Accepted(i), m)
    ensures members == BareMembers(i, order)
  {
    hide FinalContext, WorldOf, Accepted, Derive, PartitionOf, Bare, Standing.About;
    members := [];
    for k := 0 to |order|
      invariant |members| == k
      invariant forall j | 0 <= j < k :: members[j] == Bare(i, order[j])
    {
      BareIs(i, order[k]);
      var derivation := DeriveMembership(order[k], byMember[order[k]], context);
      members := members + [MemberState(order[k], derivation, context.partition, {}, {}, {}, {}, {})];
    }
    assert members == BareMembers(i, order);
  }

  lemma BareIs(i: Inputs, member: Id)
    ensures var context := FinalContext(i);
            Bare(i, member) == MemberState(member, Derive(member, Standing.About(Accepted(i), member), context),
                                           context.partition, {}, {}, {}, {}, {})
  {
    ContextPartition(i);
    hide FinalContext, PartitionOf, Derive, Standing.About, Accepted;
  }

  lemma ContextPartition(i: Inputs)
    ensures FinalContext(i).partition == PartitionOf(i).state
  {
    hide WorldOf, PartitionOf, IsReconciling, Standing.Established;
  }

  method SettleMembers(i: Inputs, bare: seq<MemberState>, derivations: map<Id, Derivation>, ghost r: Regime,
                       policy: Policy, logicalTime: nat, reconciling: bool, partition: PartitionState,
                       conflicted: set<Grant>, winners: map<Grant, Id>, conflicts: set<Conflict>)
    returns (members: seq<MemberState>)
    requires forall k | 0 <= k < |bare| :: bare[k].authority == bare[k].withheld == bare[k].withheldGlobal == {}
    requires r == Regime(i.catalog, policy, logicalTime, reconciling, partition, r.claims)
    requires forall g :: g in conflicted <==> DisputeOver(r.claims, policy, g).Withheld?
    requires forall g :: g in winners <==> DisputeOver(r.claims, policy, g).WonBy?
    requires forall g | g in winners :: DisputeOver(r.claims, policy, g) == WonBy(winners[g])
    ensures |members| == |bare|
    ensures forall k | 0 <= k < |bare| :: members[k] == Settled(bare[k], r, conflicts, i.leases)
  {
    hide DisputeOver, GrantsWith;
    members := [];
    for k := 0 to |bare|
      invariant |members| == k
      invariant forall j | 0 <= j < k :: members[j] == Settled(bare[j], r, conflicts, i.leases)
    {
      var member := bare[k];
      var needsReactivation := member.member in derivations && derivations[member.member].hasAdmission &&
                               !derivations[member.member].activationMatches;
      var granted, withheld, withheldGlobal :=
        EffectiveAuthority(member, r, i.catalog, policy, logicalTime, reconciling, partition,
                           conflicted, winners, needsReactivation);
      var leaseIds := set l | l in i.leases && l.holder.member == member.member :: l.id;
      var carried := (set c | c in member.derivation.conflicts) +
                     (set c | c in conflicts && member.member in c.claimants);
      members := members + [member.(authority := granted, withheld := withheld, withheldGlobal := withheldGlobal,
                                    conflicts := carried, leaseIds := leaseIds)];
    }
  }

  /** src/state.cpp:715-727. */
  method AssessActive(i: Inputs, active: seq<Id>, derivations: map<Id, Derivation>, epoch: nat, clock: nat,
                      policy: Policy) returns (partition: Assessment)
    requires active == ActiveMembers(i) && epoch == EpochOf(Accepted(i)) && clock == ClockOf(Accepted(i), i.logicalTime)
    requires policy == WorldOf(i).policy
    requires forall m | m in active :: m in derivations && derivations[m] == StandingDerivation(i, m)
    ensures partition == PartitionOf(i)
  {
    hide StandingDerivation, ActiveMembers, Accepted, WorldOf, AssessmentOf;
    var incarnations: seq<nat> := [];
    for k := 0 to |active|
      invariant incarnations == Incarnations(i, active)[..k]
    {
      incarnations := incarnations + [derivations[active[k]].currentIdentity.incarnation];
    }
    assert incarnations == Incarnations(i, active);
    var freshness := ObservationFreshness(policy);
    partition := AssessPartition(Survey(active, incarnations, i.observations, epoch, clock, freshness));
  }

  /** src/state.cpp:485-1086. */
  method DeriveState(i: Inputs) returns (state: Option<FederationState>)
    ensures state == StateOf(i)
  {
    hide Accepted, Genesis, GenesisConflicts, EffectivePolicy, EpochOf, ClockOf, Recovery, ReconciliationRecorded,
         MemberOrder, Standing.About, Standing.Rounds, Derive, PartitionOf, LiveClaims, DisputeOver, GrantsWith, Ledger;
    var accepted, duplicates := PrepareArtifacts(i);
    var genesis, conflicts := FindGenesis(accepted);
    var policy := ChoosePolicy(accepted, i.policy, genesis);
    var epoch, clock, advances := EpochAndClock(accepted, i.logicalTime);
    var needed, recoveryEpoch := FindRecovery(accepted, advances);
    var recorded := FindReconciliation(accepted, needed, recoveryEpoch);
    var byMember, order := IndexMembers(accepted, genesis, i.leases);
    if |order| > MAX_MEMBERS {
      return None;
    }
    var founder := if genesis.Some? then Some(genesis.value.body.founder) else None;
    var world := Standing.World(accepted, order, policy, founder);
    assert world == WorldOf(i);
    var active, derivations, converged := Standing.EstablishMembers(world, byMember, epoch, i.compatible);
    ActiveIsEstablished(i, active);
    var partition := AssessActive(i, active, derivations, epoch, clock, policy);
    var reconciling := Clear(active, derivations, needed, recorded);
    var context := Context(epoch, policy, partition.state, reconciling, Elements(active), founder, i.compatible);
    ContextIs(i);
    hide FinalContext, WorldOf, IsReconciling, StateConflicts, MembersIn, ActiveMembers;
    var members, allConflicts := ConcludeMembers(i, order, byMember, context, derivations, policy, clock, conflicts);
    var views := ViewsOf(i.leases, epoch, i.incarnation, clock);
    state := Some(FederationState(i.federation, i.incarnation, epoch, clock, reconciling, policy, members, views,
                                  allConflicts, Ledger(i.replay), partition));
  }

  lemma ContextIs(i: Inputs)
    ensures var w := WorldOf(i);
            FinalContext(i) == Context(EpochOf(w.accepted), w.policy, PartitionOf(i).state, IsReconciling(i),
                                       Standing.Established(w), w.founder, i.compatible)
  {
    hide WorldOf, PartitionOf, IsReconciling, Standing.Established;
  }

  /** src/state.cpp:761-1014: final derivations, claims, disputes and effective authority. */
  method ConcludeMembers(i: Inputs, order: seq<Id>, byMember: map<Id, seq<Artifact>>, context: Context,
                         derivations: map<Id, Derivation>, policy: Policy, clock: nat, genesisConflicts: set<Conflict>)
    returns (members: seq<MemberState>, conflicts: set<Conflict>)
    requires order == WorldOf(i).members && context == FinalContext(i) && policy == WorldOf(i).policy
    requires context.reconciling == IsReconciling(i) && context.partition == PartitionOf(i).state
    requires clock == ClockOf(Accepted(i), i.logicalTime) && genesisConflicts == GenesisConflicts(Accepted(i))
    requires forall m | m in order :: m in byMember && byMember[m] == Standing.About(Accepted(i), m)
    ensures members == MembersIn(i, order) && conflicts == StateConflicts(i)
  {
    hide WorldOf, FinalContext, IsReconciling, PartitionOf, Accepted, ClockOf, GenesisConflicts, DerivationOf,
         LiveClaims, DisputeOver, GrantsWith, Standing.About, Settled;
    var bare := DeriveMembers(i, order, byMember, context);
    var claims := CollectClaims(bare);
    var conflicted, winners, disputes := DetectConflicts(claims, policy);
    conflicts := genesisConflicts + disputes;
    ghost var regime := RegimeOf(i);
    members := SettleMembers(i, bare, derivations, regime, policy, clock, context.reconciling, context.partition,
                             conflicted, winners, conflicts);
    assert members == MembersIn(i, order);
  }

  lemma ActiveIsEstablished(i: Inputs, active: seq<Id>)
    requires StrictlyAscending(active) && Elements(active) == Standing.Established(WorldOf(i))
    ensures active == ActiveMembers(i)
    ensures forall m | m in active :: m in WorldOf(i).members
  {
    var w := WorldOf(i);
    Standing.EstablishedIsFixpoint(w);
    forall m | m in active ensures m in w.members {
      assert m in Standing.Round(w, Standing.Established(w));
      assert Standing.Stands(w, m, Standing.Established(w));
    }
    AscendingUnique(active, ActiveMembers(i));
  }
}
