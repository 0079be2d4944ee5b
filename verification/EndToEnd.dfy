// From a GRANTED answer back to the evidence: what stands behind an authority
// decision that was taken over a derived state.
module EndToEnd {
  import opened Sequences
  import opened Scopes
  import opened Policies
  import opened Identities
  import opened Evidence
  import opened Membership
  import Standing
  import opened Leases
  import opened State
  import opened StateProperties
  import opened Lifecycles
  import opened Authority

  /** The question is put to the state derived from `i`, under its catalogue. The
      policy argument is free. */
  ghost predicate Asks(q: Question, i: Inputs) {
    StateOf(i) == Some(q.state) && q.catalog == i.catalog
  }

  lemma {:induction false} FoundMember(members: seq<MemberState>, id: Id)
    requires FirstMember(members, id).Some?
    ensures FirstMember(members, id).value in members && FirstMember(members, id).value.member == id
  {
    if members[0].member != id {
      FoundMember(members[1..], id);
    }
  }

  lemma {:induction false} FoundView(views: seq<LeaseView>, id: LeaseId) returns (k: nat)
    requires FirstView(views, id).Some?
    ensures k < |views| && views[k] == FirstView(views, id).value && views[k].id == id
  {
    if views[0].id == id {
      k := 0;
    } else {
      k := FoundView(views[1..], id);
      k := k + 1;
    }
  }

  lemma ActorIsDerived(q: Question, i: Inputs)
    requires Asks(q, i) && Actor(q).Some?
    ensures MemberIn(i, Actor(q).value) && Actor(q).value.member == q.request.actor.member
  {
    hide StateOf;
    FoundMember(q.state.members, q.request.actor.member);
  }

  lemma HeldGrantIsGranted(q: Question, i: Inputs)
    requires Asks(q, i) && Actor(q).Some? && GrantsCover(Actor(q).value.authority, q.request.requested)
    ensures q.request.requested in Actor(q).value.authority
  {
    ActorIsDerived(q, i);
    HeldGrantsAreConcrete(i, Actor(q).value);
    hide *;
  }

  // ---- what stands behind GRANTED -------------------------------------------

  /** The presented identity agrees with the current one in all six fields. */
  ghost predicate SameSixFields(current: Identity, presented: Identity) {
    && presented.member == current.member && presented.domain == current.domain
    && presented.generation == current.generation && presented.constitution == current.constitution
    && presented.incarnation == current.incarnation && presented.node == current.node
  }

  /** The grant is one of the member's own declared terms, literally, and nothing
      takes it away: not a withdrawal, the policy, its expiry or another claimant. */
  ghost predicate DeclaredAndUndisturbed(i: Inputs, d: Derivation, member: Id, terms: Terms) {
    var policy := WorldOf(i).policy;
    var dispute := DisputeOver(ClaimsIn(i), policy, terms.grant);
    && terms in d.delegatedTerms
    && !GrantsCover(d.withdrawn, terms.grant)
    && !DelegationForbidden(policy, terms.grant.scope)
    && (terms.notAfter == 0 || ClockOf(Accepted(i), i.logicalTime) <= terms.notAfter)
    && (dispute == Undisputed || dispute == WonBy(member))
  }

  lemma GrantedActor(q: Question)
    requires Decide(q) == Granted && Classify(q.catalog, q.request.requested.scope) != Known(Local)
    ensures Actor(q).Some?
    ensures var d := Actor(q).value.derivation;
            && SameSixFields(d.currentIdentity, q.request.actor)
            && HoldsFederationAuthority(d.lifecycle) && IsEstablished(d.lifecycle)
            && (Mutating(q.request.requested.verb) ==> d.lifecycle == Active)
    ensures GrantsCover(Actor(q).value.authority, q.request.requested)
  {
    GrantedExactly(q);
    hide Decide, Actor, GrantsCover, BlockedBy, LeaseRequired, PartitionSuspends, Classify;
  }

  /** The member has been activated in its current lineage and presents the constitution it
      was admitted with. */
  ghost predicate AdmittedAsPresented(i: Inputs, d: Derivation, actor: Identity) {
    && actor.constitution == d.admittedIdentity.constitution
    && exists a | a in Accepted(i) ::
         a.kind == MembershipActivation && a.subject == actor.member && a.body.lineage == d.lineage
  }

  /** A GRANTED answer beyond local authority is backed end to end: the exact current
      identity with the constitution that was admitted, an activation, standing that leads
      back to the founder, and an undisturbed term. */
  lemma GrantedIsBacked(q: Question, i: Inputs) returns (chain: seq<Id>, terms: Terms)
    requires Asks(q, i) && Decide(q) == Granted
    requires Classify(i.catalog, q.request.requested.scope) != Known(Local)
    ensures var actor := q.request.actor;
            var d := DerivationOf(i, actor.member);
            && SameSixFields(d.currentIdentity, actor)
            && HoldsFederationAuthority(d.lifecycle) && AdmittedAsPresented(i, d, actor)
            && Standing.IsSponsorChain(WorldOf(i), chain) && chain[0] == actor.member
            && terms.grant == q.request.requested && DeclaredAndUndisturbed(i, d, actor.member, terms)
            && (Mutating(q.request.requested.verb) ==> d.lifecycle == Active)
  {
    GrantedActor(q);
    ActorIsDerived(q, i);
    hide *;
    var m := Actor(q).value;
    HeldGrantIsGranted(q, i);
    MembersAreSettled(i, m);
    terms := HeldGrant(i, m, q.request.requested);
    UndisturbedTerm(i, m, terms);
    Presented(i, m.member, q.request.actor);
    chain := EstablishedMembersAreSponsored(i, m.member);
  }

  lemma Presented(i: Inputs, member: Id, actor: Identity)
    requires HoldsFederationAuthority(DerivationOf(i, member).lifecycle)
    requires actor.member == member && SameSixFields(DerivationOf(i, member).currentIdentity, actor)
    ensures AdmittedAsPresented(i, DerivationOf(i, member), actor)
  {
    AuthorityIsActivated(i, member);
    hide DerivationOf, Accepted;
  }

  lemma UndisturbedTerm(i: Inputs, m: MemberState, terms: Terms)
    requires DispositionOf(RegimeOf(i), m.member, m.derivation, terms) == GrantedNow
    requires terms in m.derivation.delegatedTerms
    ensures DeclaredAndUndisturbed(i, m.derivation, m.member, terms)
  {
    hide RegimeOf, DispositionOf, DisputeOver, ClaimsIn, WorldOf, Accepted, ClockOf, Classify, GrantsCover,
         DelegationForbidden, GlobalMutationSuspended, PartitionOf, IsReconciling;
    TermGrantedExactly(RegimeOf(i), m.member, m.derivation, terms);
    RegimeFields(i);
  }

  /** Where the policy asks for a lease, the one presented is in the table, honoured
      now, covers the grant, and was issued to this incarnation and generation. */
  lemma GrantedLeaseIsHonoured(q: Question, i: Inputs) returns (lease: Lease)
    requires Asks(q, i) && Decide(q) == Granted
    requires Classify(i.catalog, q.request.requested.scope) != Known(Local)
    requires LeaseRequired(q.policy, q.request.requested)
    ensures lease in i.leases && lease.id == q.request.lease
    ensures EvaluateLeaseFor(lease, q.request.requested, EpochOf(Accepted(i)), i.incarnation,
                             ClockOf(Accepted(i), i.logicalTime)) == LeaseValid
    ensures lease.holder.member == q.request.actor.member
    ensures lease.holder.incarnation == q.request.actor.incarnation
    ensures lease.holder.generation == q.request.actor.generation
  {
    GrantedExactly(q);
    var k := FoundView(q.state.leases, q.request.lease);
    hide Accepted, EpochOf, ClockOf, WorldOf, GrantsCover, FirstView, Classify, Decide, MembersIn, StateConflicts, Ledger,
         PartitionOf, IsReconciling, LeaseRequired;
    lease := i.leases[k];
  }

  // ---- suspension -----------------------------------------------------------

  /** While the effective policy suspends global mutation in this situation, no
      policy argument makes the evaluation grant it. */
  lemma SuspendedGlobalMutationIsNeverGranted(q: Question, i: Inputs)
    requires Asks(q, i) && GlobalMutationSuspended(RegimeOf(i))
    requires Classify(i.catalog, q.request.requested.scope) == Known(GlobalMutation)
    ensures Decide(q) != Granted
  {
    if Decide(q) == Granted {
      GrantedExactly(q);
      ActorIsDerived(q, i);
      HeldGrantIsGranted(q, i);
      SuspensionIsTotal(i, Actor(q).value, q.request.requested);
    }
  }

  /** Two members are never both granted a federation scope that anybody claims
      exclusively. */
  lemma ExclusiveScopesAreGrantedToOne(p: Question, q: Question, i: Inputs, claim: Claim)
    requires Asks(p, i) && Asks(q, i) && Decide(p) == Granted && Decide(q) == Granted
    requires p.request.requested == q.request.requested == claim.terms.grant
    requires Classify(i.catalog, claim.terms.grant.scope) != Known(Local)
    requires claim in ClaimsIn(i) && claim.terms.mode == Exclusive
    ensures p.request.actor.member == q.request.actor.member
  {
    GrantedExactly(p);
    GrantedExactly(q);
    ActorIsDerived(p, i);
    ActorIsDerived(q, i);
    HeldGrantIsGranted(p, i);
    HeldGrantIsGranted(q, i);
    ExclusiveClaimHasOneHolder(i, Actor(p).value, Actor(q).value, claim);
    hide *;
  }

  /** Within the ledger bound, a request the coordinator has on record is never
      granted again, not even for local authority. */
  lemma RecordedRequestsAreReplays(q: Question, i: Inputs, entry: ReplayEntry)
    requires Asks(q, i) && |i.replay| <= MAX_REPLAY_ENTRIES
    requires entry in i.replay && entry.request == q.request.id
    requires q.request.federation == i.federation
    ensures Decide(q) == Replayed
  {
    LedgerDropsNothing(i.replay);
    ReplayedExactly(q);
    hide Decide, Ledger, MembersIn, StateConflicts, PartitionOf, IsReconciling, WorldOf, EpochOf, ClockOf, ViewsOf;
    assert entry in q.state.ledger;
  }
}
