// Every answer of the authority decision, exactly: for each outcome the condition on the
// request, the member and the presented lease under which it is given.
module Outcomes {
  import opened Sequences
  import opened Scopes
  import opened Policies
  import opened Identities
  import opened Membership
  import opened Leases
  import opened State
  import opened StateProperties
  import opened Provenance
  import opened Authority
  import opened EndToEnd
  import Names

  // ---- how far a request gets -----------------------------------------------

  /** Addressed to this federation, with an identifier that is not on record. */
  ghost predicate Fresh(q: Question) {
    && q.request.federation == q.state.federation
    && forall e | e in q.state.ledger :: e.request != q.request.id
  }

  /** Fresh, at the current epoch, and about a catalogued scope beyond local authority. */
  ghost predicate Heard(q: Question) {
    && Fresh(q) && q.request.epochSeen == q.state.epoch
    && Classify(q.catalog, q.request.requested.scope) in {Known(ScopeClass.Federation), Known(GlobalMutation)}
  }

  ghost predicate HeardOf(q: Question, m: MemberState) {
    Heard(q) && Actor(q) == Some(m)
  }

  /** The member holds federation authority and the presented identity is its current one. */
  ghost predicate Recognised(q: Question, m: MemberState) {
    && HeardOf(q, m) && m.derivation.lifecycle in {Active, Degraded}
    && SameSixFields(m.derivation.currentIdentity, q.request.actor)
  }

  ghost predicate Contested(m: MemberState, requested: Grant) {
    exists c | c in m.conflicts :: c.grant.verb == requested.verb && Names.Covers(c.grant.scope, requested.scope)
  }

  /** No conflict touches the grant. */
  ghost predicate Undisputed(q: Question, m: MemberState) {
    Recognised(q, m) && !Contested(m, q.request.requested)
  }

  /** The grant is in force. */
  ghost predicate Held(q: Question, m: MemberState) {
    Undisputed(q, m) && GrantsCover(m.authority, q.request.requested)
  }

  /** The grant is not in force, though nobody has withdrawn or forbidden it. */
  ghost predicate Missing(q: Question, m: MemberState) {
    && Undisputed(q, m) && !GrantsCover(m.authority, q.request.requested)
    && !GrantsCover(m.derivation.withdrawn, q.request.requested)
    && !DelegationForbidden(q.policy, q.request.requested.scope)
  }

  /** The lease presented, as the state shows it. */
  ghost predicate Presents(q: Question, v: LeaseView) {
    q.request.lease != NoLease && FirstView(q.state.leases, q.request.lease) == Some(v)
  }

  ghost predicate IssuedTo(v: LeaseView, actor: Identity) {
    v.holder == actor.member && v.holderIncarnation == actor.incarnation && v.holderGeneration == actor.generation
  }

  ghost predicate LeaseStands(q: Question) {
    exists v | v in q.state.leases ::
      Presents(q, v) && IssuedTo(v, q.request.actor) && v.state == LeaseValid && GrantsCover(v.scopes, q.request.requested)
  }

  /** In force, with a lease wherever the policy asks for one. */
  ghost predicate Backed(q: Question, m: MemberState) {
    Held(q, m) && (LeaseRequired(q.policy, q.request.requested) ==> LeaseStands(q))
  }

  /** In force, but a lease is asked for and this one is not good. */
  ghost predicate HeldWithout(q: Question, m: MemberState) {
    Held(q, m) && LeaseRequired(q.policy, q.request.requested) && !LeaseStands(q)
  }

  ghost predicate Halted(q: Question) {
    && Classify(q.catalog, q.request.requested.scope) == Known(GlobalMutation)
    && (|| (q.state.reconciling && SuspendsWhileReconciling(q.policy))
        || (q.state.partition.state in {Split, Indeterminate} && SuspendsOnPartition(q.policy)))
  }

  // ---- the ladder, spelled out ----------------------------------------------

  /** What decides before a member is looked at. */
  lemma Preliminaries(q: Question)
    ensures Decide(q) ==
            if q.request.federation != q.state.federation then Refused
            else if HasReplay(q.state.ledger, q.request.id) then Replayed
            else if q.request.epochSeen > q.state.epoch then Refused
            else if q.request.epochSeen < q.state.epoch then Stale
            else if Classify(q.catalog, q.request.requested.scope) == Known(Local) then Granted
            else if Classify(q.catalog, q.request.requested.scope).Unknown? then Unsupported
            else if Actor(q).None? then UnknownOutcome
            else DecideFrom(q, 7)
  {
    hide HasReplay, Classify, FirstMember, GrantsCover, BlockedBy;
    assert DecideFrom(q, 0) == if Passes(ServedHere, q) then DecideFrom(q, 1) else OnFailure(ServedHere, q);
    assert DecideFrom(q, 1) == if Passes(NotReplayed, q) then DecideFrom(q, 2) else OnFailure(NotReplayed, q);
    assert DecideFrom(q, 2) == if Passes(EpochNotAhead, q) then DecideFrom(q, 3) else OnFailure(EpochNotAhead, q);
    assert DecideFrom(q, 3) == if Passes(EpochNotBehind, q) then DecideFrom(q, 4) else OnFailure(EpochNotBehind, q);
    assert DecideFrom(q, 4) ==
           if Passes(BeyondLocalAuthority, q) then DecideFrom(q, 5) else OnFailure(BeyondLocalAuthority, q);
    assert DecideFrom(q, 5) == if Passes(Catalogued, q) then DecideFrom(q, 6) else OnFailure(Catalogued, q);
    assert DecideFrom(q, 6) == if Passes(MemberKnown, q) then DecideFrom(q, 7) else OnFailure(MemberKnown, q);
  }

  lemma SixFields(expected: Identity, presented: Identity)
    ensures CompareIdentities(expected, presented) == Same <==> SameSixFields(expected, presented)
    ensures CompareIdentities(expected, presented) in {OtherMember, OtherDomain} <==>
            expected.member != presented.member || expected.domain != presented.domain
  {
  }

  /** What decides about a known member before its lease is looked at. */
  lemma MemberSteps(q: Question, m: MemberState)
    requires Actor(q) == Some(m)
    ensures var actor, requested := q.request.actor, q.request.requested;
            DecideFrom(q, 7) ==
            if m.derivation.lifecycle == Absent then UnknownOutcome
            else if m.derivation.lifecycle in {Proposed, Admitted} then Incomplete
            else if m.derivation.lifecycle == Retired then Refused
            else if m.derivation.lifecycle in {Leaving, Fenced} then FencedOutcome
            else if m.derivation.currentIdentity.member != actor.member ||
                    m.derivation.currentIdentity.domain != actor.domain then Refused
            else if !SameSixFields(m.derivation.currentIdentity, actor) then FencedOutcome
            else if Contested(m, requested) then Conflicting
            else if GrantsCover(m.authority, requested) then DecideFrom(q, 11)
            else if GrantsCover(m.derivation.withdrawn, requested) then Refused
            else if DelegationForbidden(q.policy, requested.scope) then Refused
            else if requested in m.withheldGlobal then FencedOutcome
            else if requested in m.withheld then DegradedOutcome
            else Refused
  {
    SixFields(m.derivation.currentIdentity, q.request.actor);
    hide HasReplay, Classify, FirstMember, GrantsCover, CompareIdentities, SameSixFields, DelegationForbidden,
         LeaseRequired, LeaseHonoured, FirstView;
    assert DecideFrom(q, 7) == if Passes(HoldsAuthority, q) then DecideFrom(q, 8) else OnFailure(HoldsAuthority, q);
    assert DecideFrom(q, 8) == if Passes(ExactIdentity, q) then DecideFrom(q, 9) else OnFailure(ExactIdentity, q);
    assert DecideFrom(q, 9) == if Passes(Uncontested, q) then DecideFrom(q, 10) else OnFailure(Uncontested, q);
    assert DecideFrom(q, 10) == if Passes(DelegatedNow, q) then DecideFrom(q, 11) else OnFailure(DelegatedNow, q);
  }

  lemma HonouredIsStanding(q: Question)
    ensures LeaseHonoured(q) <==> LeaseStands(q)
  {
    var view := FirstView(q.state.leases, q.request.lease);
    if view.Some? {
      var k := FoundView(q.state.leases, q.request.lease);
      assert view.value in q.state.leases;
    }
    hide FirstView, GrantsCover;
  }

  /** And from there. */
  lemma LeaseSteps(q: Question, m: MemberState)
    requires Actor(q) == Some(m)
    ensures DecideFrom(q, 11) ==
            if LeaseRequired(q.policy, q.request.requested) && !LeaseStands(q) then LeaseOutcome(q)
            else if Halted(q) then FencedOutcome
            else if m.derivation.lifecycle == Degraded && q.request.requested.verb in {Mutate, Administer}
            then DegradedOutcome
            else Granted
  {
    HonouredIsStanding(q);
    hide HasReplay, Classify, FirstMember, GrantsCover, LeaseRequired, LeaseHonoured, LeaseStands, FirstView,
         SuspendsOnPartition, SuspendsWhileReconciling, LeaseOutcome;
    assert DecideFrom(q, 11) == if Passes(LeasePresented, q) then DecideFrom(q, 12) else OnFailure(LeasePresented, q);
    assert DecideFrom(q, 12) == if Passes(NotSuspended, q) then DecideFrom(q, 13) else OnFailure(NotSuspended, q);
    assert DecideFrom(q, 13) == if Passes(MayMutate, q) then DecideFrom(q, 14) else OnFailure(MayMutate, q);
    assert DecideFrom(q, 14) == Granted;
  }

  ghost predicate PresentsIssued(q: Question, state: LeaseState) {
    exists v | v in q.state.leases :: Presents(q, v) && IssuedTo(v, q.request.actor) && v.state == state
  }

  ghost predicate PresentsForeign(q: Question) {
    exists v | v in q.state.leases :: Presents(q, v) && !IssuedTo(v, q.request.actor)
  }

  /** What a lease that is not good is answered with: one issued to somebody else, or
      revoked, fences; one that has run out, or is from another epoch or incarnation, is
      stale; none, an unknown one and one that does not cover the grant is refused. */
  lemma BadLease(q: Question)
    requires !LeaseStands(q)
    ensures LeaseOutcome(q) == FencedOutcome <==> PresentsForeign(q) || PresentsIssued(q, LeaseState.LeaseRevoked)
    ensures LeaseOutcome(q) == Stale <==>
            || PresentsIssued(q, LeaseExpired) || PresentsIssued(q, StaleIssuer) || PresentsIssued(q, EpochMismatch)
            || PresentsIssued(q, HolderMismatch) || PresentsIssued(q, LeaseUnknown)
    ensures LeaseOutcome(q) == Refused <==>
            || (forall v | v in q.state.leases :: !Presents(q, v))
            || PresentsIssued(q, LeaseValid) || PresentsIssued(q, ScopeNotCovered)
    ensures LeaseOutcome(q) in {Refused, FencedOutcome, Stale}
  {
    var view := FirstView(q.state.leases, q.request.lease);
    if view.Some? {
      var k := FoundView(q.state.leases, q.request.lease);
      assert view.value in q.state.leases;
    }
    hide FirstView, GrantsCover;
  }

  // ---- outcome by outcome ---------------------------------------------------

  lemma HeardExactly(q: Question)
    ensures Heard(q) <==>
            && q.request.federation == q.state.federation && !HasReplay(q.state.ledger, q.request.id)
            && q.request.epochSeen == q.state.epoch && Classify(q.catalog, q.request.requested.scope).Known?
            && Classify(q.catalog, q.request.requested.scope) != Known(Local)
    ensures Fresh(q) <==> q.request.federation == q.state.federation && !HasReplay(q.state.ledger, q.request.id)
  {
    hide Classify;
    var class_ := Classify(q.catalog, q.request.requested.scope);
    if class_.Known? {
      assert class_.class_.Local? || class_.class_.Federation? || class_.class_.GlobalMutation?;
    }
  }

  /** UNSUPPORTED: a scope the catalogue does not know. UNKNOWN: a member the state does not
      know, or only as absent. INCOMPLETE: one that has been proposed, or admitted and not
      activated as it now stands. */
  lemma UnheardExactly(q: Question)
    ensures Decide(q) == Unsupported <==>
            Fresh(q) && q.request.epochSeen == q.state.epoch && Classify(q.catalog, q.request.requested.scope).Unknown?
    ensures Decide(q) == UnknownOutcome <==>
            Heard(q) && (Actor(q).None? || Actor(q).value.derivation.lifecycle == Absent)
    ensures Decide(q) == Incomplete <==>
            Heard(q) && Actor(q).Some? && Actor(q).value.derivation.lifecycle in {Proposed, Admitted}
  {
    Steps(q);
    hide Decide, DecideFrom, Classify, Actor, LeaseOutcome, LeaseStands, Contested, GrantsCover, HasReplay, Fresh, Heard,
         SameSixFields, LeaseRequired, DelegationForbidden, Halted;
  }

  /** All steps together. */
  lemma Steps(q: Question)
    ensures Heard(q) <==>
            && q.request.federation == q.state.federation && !HasReplay(q.state.ledger, q.request.id)
            && q.request.epochSeen == q.state.epoch && Classify(q.catalog, q.request.requested.scope).Known?
            && Classify(q.catalog, q.request.requested.scope) != Known(Local)
    ensures Fresh(q) <==> q.request.federation == q.state.federation && !HasReplay(q.state.ledger, q.request.id)
    ensures !Heard(q) ==>
              Decide(q) ==
              if q.request.federation != q.state.federation then Refused
              else if HasReplay(q.state.ledger, q.request.id) then Replayed
              else if q.request.epochSeen > q.state.epoch then Refused
              else if q.request.epochSeen < q.state.epoch then Stale
              else if Classify(q.catalog, q.request.requested.scope) == Known(Local) then Granted
              else Unsupported
    ensures Heard(q) && Actor(q).None? ==> Decide(q) == UnknownOutcome
    ensures Heard(q) && Actor(q).Some? ==>
            var m, actor, requested := Actor(q).value, q.request.actor, q.request.requested;
            Decide(q) ==
            if m.derivation.lifecycle == Absent then UnknownOutcome
            else if m.derivation.lifecycle in {Proposed, Admitted} then Incomplete
            else if m.derivation.lifecycle == Retired then Refused
            else if m.derivation.lifecycle in {Leaving, Fenced} then FencedOutcome
            else if m.derivation.currentIdentity.member != actor.member ||
                    m.derivation.currentIdentity.domain != actor.domain then Refused
            else if !SameSixFields(m.derivation.currentIdentity, actor) then FencedOutcome
            else if Contested(m, requested) then Conflicting
            else if !GrantsCover(m.authority, requested) then
              (if GrantsCover(m.derivation.withdrawn, requested) then Refused
               else if DelegationForbidden(q.policy, requested.scope) then Refused
               else if requested in m.withheldGlobal then FencedOutcome
               else if requested in m.withheld then DegradedOutcome
               else Refused)
            else if LeaseRequired(q.policy, q.request.requested) && !LeaseStands(q) then LeaseOutcome(q)
            else if Halted(q) then FencedOutcome
            else if m.derivation.lifecycle == Degraded && q.request.requested.verb in {Mutate, Administer}
            then DegradedOutcome
            else Granted
    ensures !LeaseStands(q) ==> LeaseOutcome(q) in {Refused, FencedOutcome, Stale}
  {
    HeardExactly(q);
    Preliminaries(q);
    if Actor(q).Some? {
      MemberSteps(q, Actor(q).value);
      LeaseSteps(q, Actor(q).value);
    }
    if !LeaseStands(q) {
      BadLease(q);
    }
    hide Decide, DecideFrom, Classify, Actor, LeaseOutcome, LeaseStands, Contested, GrantsCover, HasReplay, Fresh, Heard,
         SameSixFields, LeaseRequired, DelegationForbidden, Halted;
  }

  /** CONFLICTING: the member is recognised and a conflict touches the grant. */
  lemma ConflictingExactly(q: Question)
    ensures Decide(q) == Conflicting <==>
            Actor(q).Some? && Recognised(q, Actor(q).value) && Contested(Actor(q).value, q.request.requested)
  {
    Steps(q);
    hide Decide, DecideFrom, Classify, Actor, LeaseOutcome, LeaseStands, Contested, GrantsCover, HasReplay, Fresh, Heard,
         LeaseRequired, DelegationForbidden, Halted;
  }

  /** DEGRADED: the grant is withheld without being suspended, withdrawn or forbidden, or it
      is in force and backed, and a degraded member may not use it. */
  lemma DegradedExactly(q: Question)
    ensures Decide(q) == DegradedOutcome <==>
            Actor(q).Some? &&
            var m, requested := Actor(q).value, q.request.requested;
            || (Missing(q, m) && requested in m.withheld && requested !in m.withheldGlobal)
            || (Backed(q, m) && !Halted(q) && m.derivation.lifecycle == Degraded && requested.verb in {Mutate, Administer})
  {
    Steps(q);
    hide Decide, DecideFrom, Classify, Actor, LeaseOutcome, LeaseStands, Contested, GrantsCover, HasReplay, Fresh, Heard,
         LeaseRequired, DelegationForbidden, Halted;
  }

  /** FENCED: the member is fenced or leaving, presents an identity of its own that is not
      its current one, asks for a grant that is suspended, or would be in force if the
      lease presented were its own and not revoked, or if global mutation were not halted. */
  lemma FencedExactly(q: Question)
    ensures Decide(q) == FencedOutcome <==>
            Actor(q).Some? &&
            var m, actor, requested := Actor(q).value, q.request.actor, q.request.requested;
            var current := m.derivation.currentIdentity;
            || (HeardOf(q, m) && m.derivation.lifecycle in {Leaving, Fenced})
            || (HeardOf(q, m) && m.derivation.lifecycle in {Active, Degraded} && current.member == actor.member &&
                current.domain == actor.domain && !SameSixFields(current, actor))
            || (Missing(q, m) && requested in m.withheldGlobal)
            || (HeldWithout(q, m) && (PresentsForeign(q) || PresentsIssued(q, LeaseState.LeaseRevoked)))
            || (Backed(q, m) && Halted(q))
  {
    Steps(q);
    if !LeaseStands(q) {
      BadLease(q);
    }
    hide Decide, DecideFrom, Classify, Actor, LeaseOutcome, LeaseStands, Contested, GrantsCover, HasReplay, Fresh, Heard,
         LeaseRequired, DelegationForbidden, Halted, PresentsForeign, PresentsIssued;
  }

  /** STALE: the request has seen an earlier epoch, or the grant would be in force but for a
      lease of its own that has run out or is from another epoch or incarnation. */
  lemma StaleExactly(q: Question)
    ensures Decide(q) == Stale <==>
            || (Fresh(q) && q.request.epochSeen < q.state.epoch)
            || (Actor(q).Some? && HeldWithout(q, Actor(q).value) &&
                (PresentsIssued(q, LeaseExpired) || PresentsIssued(q, StaleIssuer) || PresentsIssued(q, EpochMismatch) ||
                 PresentsIssued(q, HolderMismatch) || PresentsIssued(q, LeaseUnknown)))
  {
    Steps(q);
    if !LeaseStands(q) {
      BadLease(q);
    }
    hide Decide, DecideFrom, Classify, Actor, LeaseOutcome, LeaseStands, Contested, GrantsCover, HasReplay, Fresh, Heard,
         LeaseRequired, DelegationForbidden, Halted, PresentsForeign, PresentsIssued;
  }

  /** REFUSED: addressed elsewhere, ahead of the epoch, from a retired member or under
      another member's or domain's identity, for a grant that is withdrawn, forbidden or was
      never offered, or one that would be in force but for a lease that is missing, unknown
      or does not cover it. */
  lemma RefusedExactly(q: Question)
    ensures Decide(q) == Refused <==>
            || q.request.federation != q.state.federation
            || (Fresh(q) && q.request.epochSeen > q.state.epoch)
            || (Actor(q).Some? &&
                var m, actor, requested := Actor(q).value, q.request.actor, q.request.requested;
                var current := m.derivation.currentIdentity;
                || (HeardOf(q, m) && m.derivation.lifecycle == Retired)
                || (HeardOf(q, m) && m.derivation.lifecycle in {Active, Degraded} &&
                    (current.member != actor.member || current.domain != actor.domain))
                || (Undisputed(q, m) && !GrantsCover(m.authority, requested) &&
                    (GrantsCover(m.derivation.withdrawn, requested) || DelegationForbidden(q.policy, requested.scope)))
                || (Missing(q, m) && requested !in m.withheldGlobal && requested !in m.withheld)
                || (HeldWithout(q, m) &&
                    ((forall v | v in q.state.leases :: !Presents(q, v)) ||
                     PresentsIssued(q, LeaseValid) || PresentsIssued(q, ScopeNotCovered))))
  {
    Steps(q);
    if !LeaseStands(q) {
      BadLease(q);
    }
    hide Decide, DecideFrom, Classify, Actor, LeaseOutcome, LeaseStands, Contested, GrantsCover, HasReplay, Fresh, Heard,
         LeaseRequired, DelegationForbidden, Halted, PresentsForeign, PresentsIssued, Presents;
  }

  /** A scope of a domain's own namespace is local unless the catalogue says otherwise: it is
      granted to whoever asks in time, member or not, whatever the state holds. */
  lemma OwnDomainIsGranted(q: Question, name: string)
    requires q.request.requested.scope == "domain." + name && name != []
    requires !Names.IsWildcard("domain." + name) && "domain." + name !in q.catalog
    ensures Decide(q) == Granted <==> Fresh(q) && q.request.epochSeen == q.state.epoch
  {
    assert ("domain." + name)[..7] == "domain.";
    assert Classify(q.catalog, q.request.requested.scope) == Known(Local);
    Steps(q);
    hide Decide, Classify, Heard, HasReplay, Fresh, Actor;
  }

  // ---- over a derived state -------------------------------------------------

  /** A member that is recognised, and a grant no conflict shown at it touches. */
  ghost predicate AsksInOrder(q: Question, i: Inputs, m: MemberState) {
    Asks(q, i) && Undisputed(q, m) && OffersInOrder(i, m, q.request.requested)
  }

  lemma OfferedIsNotWithdrawn(q: Question, i: Inputs, m: MemberState)
    requires AsksInOrder(q, i, m)
    ensures Asks(q, i) && Actor(q) == Some(m) && Undisputed(q, m)
    ensures !GrantsCover(m.derivation.withdrawn, q.request.requested)
  {
    hide GrantsCover, Clash, Preferred, DelegationForbidden, StateOf, WorldOf, ClaimsIn, Contested, Classify;
  }

  lemma AuthorityCovers(q: Question, i: Inputs, m: MemberState)
    requires Asks(q, i) && Actor(q) == Some(m)
    ensures MemberIn(i, m)
    ensures GrantsCover(m.authority, q.request.requested) <==> q.request.requested in m.authority
  {
    hide *;
    ActorIsDerived(q, i);
    HeldGrantsAreConcrete(i, m);
  }

  /** While the federation suspends global mutation, one that is otherwise in order is
      answered FENCED, or REFUSED if the policy the question is put under forbids it. */
  lemma SuspendedMutationIsFenced(q: Question, i: Inputs, m: MemberState)
    requires AsksInOrder(q, i, m) && Suspending(i)
    requires Classify(i.catalog, q.request.requested.scope) == Known(GlobalMutation)
    ensures Decide(q) == if DelegationForbidden(q.policy, q.request.requested.scope) then Refused else FencedOutcome
  {
    OfferedIsNotWithdrawn(q, i, m);
    AuthorityCovers(q, i, m);
    AuthorityExactly(i, m, q.request.requested);
    FencedExactly(q);
    RefusedExactly(q);
    hide Decide, GrantsCover, DelegationForbidden, Suspending, OffersInOrder, OffersOutOfOrder, Undisputed, Asks, MemberIn,
         HeldWithout, Backed, PresentsForeign, PresentsIssued, Presents, Fresh, HeardOf, SameSixFields, Actor, Classify;
  }

  /** A degraded member asking for a mutation it has declared and that is otherwise in order
      is answered DEGRADED, unless the federation suspends it or the policy forbids it. */
  lemma DegradedMutationIsDegraded(q: Question, i: Inputs, m: MemberState)
    requires AsksInOrder(q, i, m)
    requires m.derivation.lifecycle == Degraded && q.request.requested.verb in {Mutate, Administer}
    requires !(Suspending(i) && Classify(i.catalog, q.request.requested.scope) == Known(GlobalMutation))
    ensures Decide(q) == if DelegationForbidden(q.policy, q.request.requested.scope) then Refused else DegradedOutcome
  {
    OfferedIsNotWithdrawn(q, i, m);
    AuthorityCovers(q, i, m);
    AuthorityExactly(i, m, q.request.requested);
    DegradedExactly(q);
    RefusedExactly(q);
    hide Decide, GrantsCover, DelegationForbidden, Suspending, OffersInOrder, OffersOutOfOrder, Undisputed, Asks, MemberIn,
         HeldWithout, Backed, PresentsForeign, PresentsIssued, Presents, Fresh, HeardOf, SameSixFields, Actor, Classify;
  }

  /** A grant withheld because live claims on it clash is answered CONFLICTING to every
      claimant that asks under its current identity. */
  lemma DisputedGrantIsConflicting(q: Question, i: Inputs, m: MemberState, claim: Claim)
    requires Asks(q, i) && Recognised(q, m)
    requires claim in ClaimsIn(i) && claim.member == m.member && claim.terms.grant == q.request.requested
    requires DisputeOver(ClaimsIn(i), WorldOf(i).policy, q.request.requested).Withheld?
    ensures Decide(q) == Conflicting
  {
    var requested := q.request.requested;
    var c := DisputeOver(ClaimsIn(i), WorldOf(i).policy, requested).conflict;
    ActorIsDerived(q, i);
    WithheldExactly(ClaimsIn(i), WorldOf(i).policy, requested);
    FederationConflictsExactly(i, c);
    ConflictsShownExactly(i, m, c);
    ConflictingExactly(q);
    hide Decide, DisputeOver, ClaimsIn, WorldOf, StateConflicts, Asks, MemberIn, Clash, Preferred, HeardOf, SameSixFields,
         Accepted, OfKind, DisagreesAs, ClaimsOn, Precedence;
    assert c in m.conflicts && c.grant.verb == requested.verb && Names.Covers(c.grant.scope, requested.scope);
  }
}
