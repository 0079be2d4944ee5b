// What a GRANTED answer of the running coordinator means, across all the layers: the
// run, the recovered tables, the derived state and the decision.
module Guarantees {
  import opened Sequences
  import opened Scopes
  import opened Policies
  import opened Identities
  import opened Membership
  import opened Leases
  import opened State
  import opened Authority
  import opened EndToEnd
  import opened Coordination
  import opened Runs
  import opened Restarts
  import Standing

  ghost predicate BeyondLocal(m: Machine, request: Request) {
    Classify(m.config.catalog, request.requested.scope) != Known(Local)
  }

  lemma AskedOverInputs(m: Machine, request: Request, digest: nat, written: bool)
    requires EvaluateResult(m, request, digest, written).answer == Answered(Granted)
    ensures StateOf(InputsOf(m)).Some? && Asks(Asked(m, request), InputsOf(m)) && Decide(Asked(m, request)) == Granted
    ensures InputsOf(m).catalog == m.config.catalog
  {
    AnswerIsDecision(m, request, digest, written);
    hide EvaluateResult, Decide, StateOf, ObservationsOf, LeasesOf;
  }

  /** Every GRANTED answer beyond local authority is backed by the evidence in memory:
      exact identity as admitted and activated, a chain of sponsors to the founder, an
      undisturbed term. */
  lemma GrantsAreBacked(m: Machine, request: Request, digest: nat, written: bool)
    returns (chain: seq<Id>, terms: Terms)
    requires EvaluateResult(m, request, digest, written).answer == Answered(Granted) && BeyondLocal(m, request)
    ensures var i := InputsOf(m);
            var d := DerivationOf(i, request.actor.member);
            && SameSixFields(d.currentIdentity, request.actor) && HoldsFederationAuthority(d.lifecycle)
            && AdmittedAsPresented(i, d, request.actor)
            && Standing.IsSponsorChain(WorldOf(i), chain) && chain[0] == request.actor.member
            && terms.grant == request.requested && DeclaredAndUndisturbed(i, d, request.actor.member, terms)
  {
    AskedOverInputs(m, request, digest, written);
    hide EvaluateResult, Decide, StateOf, InputsOf, DerivationOf, WorldOf, Asks, DeclaredAndUndisturbed,
         AdmittedAsPresented, Standing.IsSponsorChain;
    chain, terms := GrantedIsBacked(Asked(m, request), InputsOf(m));
  }

  lemma ListedLease(m: Machine, lease: Lease)
    requires MachineOk(m) && lease in InputsOf(m).leases
    ensures lease.id in m.memory.leases && m.memory.leases[lease.id] == lease
  {
    var federation := m.config.federation;
    var counters := Ascending(Counters(m.memory.leases, federation));
    var k :| 0 <= k < |counters| && LeasesOf(m.memory.leases, federation)[k] == lease;
    var id := LeaseId(federation, counters[k]);
    assert counters[k] in Counters(m.memory.leases, federation);
    CounterIsKey(m.memory.leases, federation, counters[k]);
    MachineSame(m, id);
    LogReads(m.log, federation);
    hide Read, LogOk, MachineOk;
    assert LeaseOk(Read(m.log), id, federation);
  }

  /** Where the policy requires a lease, the one presented is in the table, unrevoked,
      covers the grant, and was issued by this very incarnation. */
  lemma GrantsRestOnLiveLeases(m: Machine, request: Request, digest: nat, written: bool)
    requires MachineOk(m) && EvaluateResult(m, request, digest, written).answer == Answered(Granted)
    requires BeyondLocal(m, request) && LeaseRequired(m.config.policy, request.requested)
    ensures request.lease in m.memory.leases
    ensures var lease := m.memory.leases[request.lease];
            && !lease.revoked && lease.issuerIncarnation == m.memory.incarnation
            && GrantsCover(lease.scopes, request.requested)
            && lease.holder.member == request.actor.member
            && lease.holder.incarnation == request.actor.incarnation
  {
    AskedOverInputs(m, request, digest, written);
    InputFields(m);
    hide EvaluateResult, Decide, StateOf, InputsOf, Asks, MachineOk, LeaseRequired;
    var i := InputsOf(m);
    var lease := GrantedLeaseIsHonoured(Asked(m, request), i);
    HonouredExactly(lease, request.requested, EpochOf(Accepted(i)), i.incarnation, ClockOf(Accepted(i), i.logicalTime));
    ListedLease(m, lease);
  }

  // ---- leases that are dead -------------------------------------------------

  function Unleased(request: Request): Request {
    request.(lease := NoLease)
  }

  lemma NoLeaseIsNotHonoured(q: Question)
    requires q.request.lease == NoLease
    ensures !LeaseHonoured(q)
  {
  }

  ghost predicate Dead(m: Machine, id: LeaseId) {
    id in m.memory.leases ==> m.memory.leases[id].revoked || m.memory.leases[id].issuerIncarnation != m.memory.incarnation
  }

  lemma DeadIsNotHonoured(m: Machine, request: Request)
    requires MachineOk(m) && StateOf(InputsOf(m)).Some? && Dead(m, request.lease)
    ensures !LeaseHonoured(Asked(m, request))
  {
    var q, i := Asked(m, request), InputsOf(m);
    if LeaseHonoured(q) {
      InputFields(m);
      HonouredView(q, i);
      var lease := HonouredLease(q, i);
      ListedLease(m, lease);
      hide StateOf, InputsOf, Asked, LeaseHonoured, MachineOk;
    }
  }

  lemma HonouredView(q: Question, i: Inputs)
    requires LeaseHonoured(q)
    ensures FirstView(q.state.leases, q.request.lease).Some?
    ensures FirstView(q.state.leases, q.request.lease).value.state == LeaseValid
  {
    hide FirstView, GrantsCover;
  }

  lemma HonouredLease(q: Question, i: Inputs) returns (lease: Lease)
    requires StateOf(i) == Some(q.state)
    requires FirstView(q.state.leases, q.request.lease).Some?
    requires FirstView(q.state.leases, q.request.lease).value.state == LeaseValid
    ensures lease in i.leases && lease.id == q.request.lease
    ensures !lease.revoked && lease.issuerIncarnation == i.incarnation
  {
    var k := FoundView(q.state.leases, q.request.lease);
    hide Accepted, EpochOf, ClockOf, WorldOf, FirstView, MembersIn, StateConflicts, Ledger, PartitionOf, IsReconciling;
    lease := i.leases[k];
  }

  lemma SameDecisionSameAnswer(m: Machine, p: Request, r: Request, digest: nat, written: bool)
    requires p.federation == r.federation && p.id == r.id
    requires StateOf(InputsOf(m)).Some? ==> (Decide(Asked(m, p)) == Granted <==> Decide(Asked(m, r)) == Granted)
    ensures EvaluateResult(m, p, digest, written).answer == Answered(Granted) <==>
            EvaluateResult(m, r, digest, written).answer == Answered(Granted)
  {
    hide StateOf, InputsOf, Decide, HasReplay;
    var state := StateOf(InputsOf(m));
    if p.federation != NIL && state.Some? {
      CommittedGrant(m, Decide(Asked(m, p)), ReplayEntry(p.id, digest, state.value.logicalTime), written);
      CommittedGrant(m, Decide(Asked(m, r)), ReplayEntry(r.id, digest, state.value.logicalTime), written);
      hide Committed;
    }
  }

  lemma CommittedGrant(m: Machine, outcome: Outcome, entry: ReplayEntry, written: bool)
    ensures Committed(m, outcome, entry, written).answer == Answered(Granted) <==>
            outcome == Granted && (HasReplay(m.memory.replay, entry.request) || (|m.memory.replay| < MAX_REPLAY_ENTRIES && written))
  {
    hide HasReplay;
  }

  lemma SameDecision(p: Question, q: Question)
    requires q == p.(request := Unleased(p.request)) && !LeaseHonoured(p)
    ensures Decide(p) == Granted <==> Decide(q) == Granted
  {
    GrantedExactly(p);
    GrantedExactly(q);
    NoLeaseIsNotHonoured(q);
    SameActor(p, q);
    hide Decide, Actor, GrantsCover, BlockedBy, Classify, HasReplay, LeaseRequired, LeaseHonoured, CompareIdentities,
         PartitionSuspends;
  }

  lemma SameActor(p: Question, q: Question)
    requires q == p.(request := Unleased(p.request))
    ensures Actor(q) == Actor(p) && (PartitionSuspends(q) <==> PartitionSuspends(p))
  {
    hide FirstMember;
  }

  /** A revoked lease, one from another incarnation and one that was never issued are all
      worth exactly as much as no lease at all, under any policy. */
  lemma DeadLeaseIsNoLease(m: Machine, request: Request, digest: nat, written: bool)
    requires MachineOk(m) && Dead(m, request.lease)
    ensures EvaluateResult(m, request, digest, written).answer == Answered(Granted) <==>
            EvaluateResult(m, Unleased(request), digest, written).answer == Answered(Granted)
  {
    if StateOf(InputsOf(m)).Some? {
      DeadIsNotHonoured(m, request);
      SameDecision(Asked(m, request), Asked(m, Unleased(request)));
    }
    SameDecisionSameAnswer(m, request, Unleased(request), digest, written);
    hide EvaluateResult, StateOf, InputsOf, Decide, MachineOk, Dead, LeaseHonoured;
  }

  // ---- dead leases over runs ------------------------------------------------

  /** The grant rests on the lease: the same request without one would not be granted,
      whichever policy asks for it. */
  ghost predicate GrantedOnLease(steps: seq<Step>, k: nat, request: Request)
    requires k < |steps|
  {
    && AnswersRequest(steps, k, request) && AnswerAt(steps, k) == Answered(Granted)
    && EvaluateResult(WorldAt(steps, k).machine, Unleased(request), steps[k].op.digest, steps[k].written).answer
       != Answered(Granted)
  }

  /** Wherever the configured policy requires a lease, a grant rests on one. */
  lemma RequiredLeasesCarryTheGrant(steps: seq<Step>, federation: Id, k: nat, request: Request)
    requires IsRun(steps, federation) && k < |steps|
    requires AnswersRequest(steps, k, request) && AnswerAt(steps, k) == Answered(Granted)
    requires BeyondLocal(WorldAt(steps, k).machine, request)
    requires LeaseRequired(WorldAt(steps, k).machine.config.policy, request.requested)
    ensures GrantedOnLease(steps, k, request)
  {
    RunsKeepAgreement(steps, federation, k);
    hide EvaluateResult, MachineOk, WorldAt, AnswerAt, LeaseRequired;
    var m := WorldAt(steps, k).machine;
    if EvaluateResult(m, Unleased(request), steps[k].op.digest, steps[k].written).answer == Answered(Granted) {
      GrantsRestOnLiveLeases(m, Unleased(request), steps[k].op.digest, steps[k].written);
      NoLeaseIsNoKey(m);
    }
  }

  lemma NoLeaseIsNoKey(m: Machine)
    requires MachineOk(m)
    ensures NoLease !in m.memory.leases
  {
    hide Read, LogOk;
  }

  lemma DeadLeaseCarriesNothing(steps: seq<Step>, federation: Id, k: nat, request: Request)
    requires IsRun(steps, federation) && k < |steps| && AnswersRequest(steps, k, request)
    requires Dead(WorldAt(steps, k).machine, request.lease)
    ensures !GrantedOnLease(steps, k, request)
  {
    RunsKeepAgreement(steps, federation, k);
    EvaluateStep(steps, k, request);
    hide EvaluateResult, MachineOk, WorldAt, AnswerAt, Dead;
    DeadLeaseIsNoLease(WorldAt(steps, k).machine, request, steps[k].op.digest, steps[k].written);
  }

  /** Once a revocation is recorded, no later request is granted on that lease, through
      any number of restarts and under any policy. */
  lemma RevokedLeasesNeverGrant(steps: seq<Step>, federation: Id, i: nat, j: nat, request: Request)
    requires IsRun(steps, federation) && i <= j < |steps|
    requires RevocationRecorded(LogOf(WorldAt(steps, i)), request.lease)
    ensures !GrantedOnLease(steps, j, request)
  {
    if GrantedOnLease(steps, j, request) {
      RecordedRevocationsStay(steps, federation, i, j, request.lease);
      DeadLeaseCarriesNothing(steps, federation, j, request);
    }
  }

  /** A lease that was in the table before a restart never carries a grant after it. */
  lemma OldLeasesNeverGrant(steps: seq<Step>, federation: Id, i: nat, j: nat, k: nat, request: Request)
    requires IsRun(steps, federation) && i <= j < |steps| && RestartsBetween(steps, i, j, k)
    requires WorldAt(steps, i).Up? && request.lease in WorldAt(steps, i).machine.memory.leases
    ensures !GrantedOnLease(steps, j, request)
  {
    if GrantedOnLease(steps, j, request) {
      RecoveredLeasesAreStale(steps, federation, i, j, k, request.lease);
      var m := WorldAt(steps, j).machine;
      StaleOrRevoked(m.memory.leases[request.lease], m.memory.incarnation);
      DeadLeaseCarriesNothing(steps, federation, j, request);
    }
  }

  lemma StaleOrRevoked(lease: Lease, incarnation: nat)
    requires EvaluateLease(lease, 0, incarnation, 0) in {LeaseState.LeaseRevoked, StaleIssuer}
    ensures lease.revoked || lease.issuerIncarnation != incarnation
  {
  }

  /** While the derived state is suspended, no call grants a global mutation. */
  lemma SuspensionBindsTheCoordinator(m: Machine, request: Request, digest: nat, written: bool)
    requires GlobalMutationSuspended(RegimeOf(InputsOf(m)))
    requires Classify(m.config.catalog, request.requested.scope) == Known(GlobalMutation)
    ensures EvaluateResult(m, request, digest, written).answer != Answered(Granted)
  {
    hide EvaluateResult, GlobalMutationSuspended, InputsOf, Decide, Asks, RegimeOf;
    if EvaluateResult(m, request, digest, written).answer == Answered(Granted) {
      AskedOverInputs(m, request, digest, written);
      SuspendedGlobalMutationIsNeverGranted(Asked(m, request), InputsOf(m));
    }
  }
}
