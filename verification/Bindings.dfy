// Two sentences of docs/authority-model.md measured against the decision: that every binding
// of a lease is checked on use, and that UNKNOWN means there is no evidence at all.
module Bindings {
  import opened Scopes
  import opened Policies
  import opened Identities
  import opened Evidence
  import opened Membership
  import opened Leases
  import opened State
  import opened StateProperties
  import opened Provenance
  import opened Lifecycles
  import opened Authority
  import opened EndToEnd
  import opened Outcomes
  import Standing

  // ---- the constitution a lease is bound to ---------------------------------

  /** The same lease table but for the constitutions its holders are recorded with. */
  ghost predicate SameButConstitutions(i: Inputs, j: Inputs) {
    && j == i.(leases := j.leases) && |j.leases| == |i.leases|
    && forall k | 0 <= k < |i.leases| ::
         j.leases[k] == i.leases[k].(holder := i.leases[k].holder.(constitution := j.leases[k].holder.constitution))
  }

  lemma {:induction false} SameHolders(a: seq<Lease>, b: seq<Lease>)
    requires |a| == |b| && forall k | 0 <= k < |a| :: a[k].holder.member == b[k].holder.member
    ensures Holders(a) == Holders(b)
  {
    if a != [] {
      SameHolders(a[..|a| - 1], b[..|b| - 1]);
    }
  }

  lemma SameTables(i: Inputs, j: Inputs, member: Id, epoch: nat, now: nat)
    requires SameButConstitutions(i, j)
    ensures LeasesHeld(i.leases, member) == LeasesHeld(j.leases, member)
    ensures ViewsOf(i.leases, epoch, i.incarnation, now) == ViewsOf(j.leases, epoch, i.incarnation, now)
  {
    forall k | 0 <= k < |i.leases|
      ensures ViewOf(i.leases[k], epoch, i.incarnation, now) == ViewOf(j.leases[k], epoch, i.incarnation, now)
    {
    }
    forall id ensures id in LeasesHeld(i.leases, member) <==> id in LeasesHeld(j.leases, member) {
      if l :| l in i.leases && l.holder.member == member && l.id == id {
        var k :| 0 <= k < |i.leases| && i.leases[k] == l;
        assert j.leases[k] in j.leases;
      }
      if l :| l in j.leases && l.holder.member == member && l.id == id {
        var k :| 0 <= k < |j.leases| && j.leases[k] == l;
        assert i.leases[k] in i.leases;
      }
    }
  }

  lemma SameFacts(i: Inputs, j: Inputs)
    requires SameButConstitutions(i, j)
    ensures Accepted(j) == Accepted(i) && WorldOf(j) == WorldOf(i)
    ensures forall m :: DerivationOf(j, m) == DerivationOf(i, m)
    ensures PartitionOf(j) == PartitionOf(i) && IsReconciling(j) == IsReconciling(i)
  {
    SameHolders(i.leases, j.leases);
    SameEverywhere(i, j);
  }

  lemma SameEverywhere(i: Inputs, j: Inputs)
    requires j == i.(leases := j.leases) && Holders(j.leases) == Holders(i.leases)
    ensures Accepted(j) == Accepted(i) && WorldOf(j) == WorldOf(i)
    ensures forall m :: DerivationOf(j, m) == DerivationOf(i, m)
    ensures PartitionOf(j) == PartitionOf(i) && IsReconciling(j) == IsReconciling(i)
  {
    SameAcceptedLeases(i, j);
    hide Accepted, EffectivePolicy, Founder, Subjects, Holders, Standing.About, Standing.Established, Derive, EpochOf,
         ClockOf, Partition.AssessmentOf, Recovery, ReconciliationRecorded, Filtered;
    assert WorldOf(j) == WorldOf(i);
    assert forall m :: StandingDerivation(j, m) == StandingDerivation(i, m);
    assert Incarnations(j, ActiveMembers(j)) == Incarnations(i, ActiveMembers(i));
  }

  lemma SameAcceptedLeases(i: Inputs, j: Inputs)
    requires j == i.(leases := j.leases)
    ensures Accepted(j) == Accepted(i)
  {
    forall a ensures a in Accepted(i) <==> a in Accepted(j) {
      assert Acceptable(i, a) <==> Acceptable(j, a);
    }
    EvidenceOrderUnique(Accepted(i), Accepted(j));
  }

  /** The constitution a lease is bound to enters no derived state, and so no answer: with
      any others in its place the state is the same. */
  lemma ConstitutionIsNotChecked(i: Inputs, j: Inputs)
    requires SameButConstitutions(i, j)
    ensures StateOf(j) == StateOf(i)
  {
    SameFacts(i, j);
    SameFederation(i, j);
    SameMembers(i, j, WorldOf(i).members);
    SameTables(i, j, NIL, EpochOf(Accepted(i)), ClockOf(Accepted(i), i.logicalTime));
    hide Accepted, WorldOf, PartitionOf, IsReconciling, EpochOf, ClockOf, StateConflicts, Ledger, ViewsOf, MembersIn,
         LeasesHeld, RegimeOf, Bare;
    SameInputs(i, j);
    hide SameButConstitutions;
  }

  lemma SameInputs(i: Inputs, j: Inputs)
    requires SameButConstitutions(i, j)
    ensures j.federation == i.federation && j.incarnation == i.incarnation && j.logicalTime == i.logicalTime
    ensures j.replay == i.replay
  {
  }

  lemma SameMembers(i: Inputs, j: Inputs, order: seq<Id>)
    requires SameButConstitutions(i, j)
    ensures MembersIn(i, order) == MembersIn(j, order)
  {
    forall k | 0 <= k < |order| ensures MembersIn(i, order)[k] == MembersIn(j, order)[k] {
      SameMember(i, j, order[k]);
    }
  }

  lemma SameFederation(i: Inputs, j: Inputs)
    requires SameButConstitutions(i, j)
    ensures RegimeOf(j) == RegimeOf(i) && StateConflicts(j) == StateConflicts(i)
    ensures forall m :: Bare(j, m) == Bare(i, m)
  {
    SameFacts(i, j);
    hide Accepted, WorldOf, PartitionOf, IsReconciling, DerivationOf, EpochOf, ClockOf, LiveClaims, GenesisConflicts,
         DisputeConflicts;
    assert BareMembers(i, WorldOf(i).members) == BareMembers(j, WorldOf(i).members);
  }

  lemma SameMember(i: Inputs, j: Inputs, member: Id)
    requires SameButConstitutions(i, j)
    ensures MemberOf(j, member) == MemberOf(i, member)
  {
    SameFederation(i, j);
    SameTables(i, j, member, 0, 0);
    hide RegimeOf, StateConflicts, Bare, GrantsWith, LeasesHeld, SameButConstitutions;
  }

  ghost function Rebound(leases: seq<Lease>, digest: Digest): (r: seq<Lease>)
    ensures |r| == |leases|
    ensures forall k | 0 <= k < |leases| :: r[k] == leases[k].(holder := leases[k].holder.(constitution := digest))
  {
    seq(|leases|, k requires 0 <= k < |leases| => leases[k].(holder := leases[k].holder.(constitution := digest)))
  }

  /** Wherever a required lease lets a grant through, the same lease lets it through when it
      is bound to no constitution at all, or to any other one. */
  lemma GrantedUnderAnyConstitution(q: Question, i: Inputs, digest: Digest) returns (lease: Lease)
    requires Asks(q, i) && Decide(q) == Granted
    requires Classify(i.catalog, q.request.requested.scope) != Known(Local)
    requires LeaseRequired(q.policy, q.request.requested)
    ensures var j := i.(leases := Rebound(i.leases, digest));
            && Asks(q, j) && lease in j.leases && lease.id == q.request.lease && lease.holder.constitution == digest
            && EvaluateLeaseFor(lease, q.request.requested, EpochOf(Accepted(j)), j.incarnation,
                                ClockOf(Accepted(j), j.logicalTime)) == LeaseValid
  {
    var j := i.(leases := Rebound(i.leases, digest));
    ConstitutionIsNotChecked(i, j);
    hide StateOf, Decide, Accepted, EpochOf, ClockOf, LeaseRequired, Classify, EvaluateLeaseFor;
    lease := GrantedLeaseIsHonoured(q, j);
  }

  // ---- what UNKNOWN means ---------------------------------------------------

  /** UNKNOWN is answered exactly to a member that nothing names, or of which the current
      lineage holds no proposal, departure or retirement and which is not the founder. */
  lemma UnknownExactly(q: Question, i: Inputs)
    requires Asks(q, i)
    ensures var member := q.request.actor.member;
            var about := Standing.About(Accepted(i), member);
            Decide(q) == UnknownOutcome <==>
            Heard(q) &&
            (!Named(i, member) ||
             (!AnyFiled(member, about, MembershipProposal) && !AnyFiled(member, about, MembershipLeave) &&
              !AnyFiled(member, about, MembershipRetirement) && !IsFounder(member, WorldOf(i).founder)))
  {
    var member := q.request.actor.member;
    UnheardExactly(q);
    StateExactly(i, q.state, member);
    ActorExactly(q, i);
    AbsentExactly(i, member);
    hide *;
  }

  lemma {:induction false} FoundAmong(members: seq<MemberState>, id: Id)
    ensures FirstMember(members, id).Some? <==> exists m | m in members :: m.member == id
  {
    if members != [] && members[0].member != id {
      FoundAmong(members[1..], id);
      assert members == [members[0]] + members[1..];
    }
  }

  lemma ActorExactly(q: Question, i: Inputs)
    requires Asks(q, i)
    ensures Actor(q).Some? <==> exists m | m in q.state.members :: m.member == q.request.actor.member
    ensures Actor(q).Some? ==> Actor(q).value.derivation == DerivationOf(i, q.request.actor.member)
  {
    FoundAmong(q.state.members, q.request.actor.member);
    if Actor(q).Some? {
      ActorIsDerived(q, i);
      MembersAreSettled(i, Actor(q).value);
      NamedAsAsked(i, q.request.actor.member);
    }
    hide FirstMember, StateOf, MemberOf, DerivationOf, WorldOf;
  }

  lemma AbsentExactly(i: Inputs, member: Id)
    ensures var about := Standing.About(Accepted(i), member);
            DerivationOf(i, member).lifecycle == Absent <==>
            !AnyFiled(member, about, MembershipProposal) && !AnyFiled(member, about, MembershipLeave) &&
            !AnyFiled(member, about, MembershipRetirement) && !IsFounder(member, WorldOf(i).founder)
  {
    hide *;
    AboutInOrder(i, member);
    DerivedFrom(i, member);
    Standing.DerivedLifecycle(member, Standing.About(Accepted(i), member), FinalContext(i));
    LifecycleExactly(member, Standing.About(Accepted(i), member), FinalContext(i));
  }

  lemma AboutInOrder(i: Inputs, member: Id)
    ensures ByEvidence(Standing.About(Accepted(i), member))
  {
    AboutKeepsOrder(Accepted(i), member);
  }

  /** The promise fails: somebody about whom there is evidence, but only an acceptance, is
      answered UNKNOWN. */
  lemma LoneAcceptanceIsUnknown(q: Question, i: Inputs, acceptance: Artifact)
    requires Asks(q, i) && Heard(q) && q.request.actor.member == 7
    requires i.artifacts == [acceptance] && acceptance in Accepted(i)
    requires acceptance.kind == MembershipAcceptance && acceptance.subject == 7
    ensures Named(i, 7) && Decide(q) == UnknownOutcome
  {
    var about := Standing.About(Accepted(i), 7);
    UnknownExactly(q, i);
    assert forall a | a in about :: a.kind == MembershipAcceptance;
    NoFounder(i, acceptance);
    hide Decide, Asks, Heard, Accepted, WorldOf, IsFounder, LineageOf;
  }

  lemma NoFounder(i: Inputs, acceptance: Artifact)
    requires i.artifacts == [acceptance] && acceptance.kind == MembershipAcceptance
    ensures !IsFounder(7, WorldOf(i).founder)
  {
    AcceptedInOrder(i);
    FounderExactly(Accepted(i), 7);
    FounderIsGenesis(i);
    hide EffectivePolicy, MemberOrder, Founder, IsFounder;
    assert forall a | a in Accepted(i) :: a == acceptance;
  }
}
