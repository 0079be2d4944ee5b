// The coordinator answers under the policy it was configured with, while the federation's
// policy in force is the one its accepted evidence establishes: exactly when the two
// differ in what an answer or a lease promises.
module ConfiguredPolicy {
  import opened Sequences
  import opened Scopes
  import opened Policies
  import opened Identities
  import opened Evidence
  import opened Membership
  import opened Leases
  import opened State
  import opened StateProperties
  import opened Authority
  import opened EndToEnd
  import opened Coordination
  import opened Runs
  import opened Restarts
  import opened Founding
  import opened Guarantees

  /** The policy in force: the newest accepted update, else the genesis policy, else the
      configured one. */
  ghost function PolicyInForce(m: Machine): Policy {
    WorldOf(InputsOf(m)).policy
  }

  // ---- grants that need a lease ---------------------------------------------

  /** The lease presented is in the table, unrevoked, issued by this incarnation to this
      actor, and covers the grant. */
  ghost predicate RestsOnLiveLease(m: Machine, request: Request) {
    request.lease in m.memory.leases &&
    var lease := m.memory.leases[request.lease];
    && !lease.revoked && lease.issuerIncarnation == m.memory.incarnation
    && GrantsCover(lease.scopes, request.requested)
    && lease.holder.member == request.actor.member
    && lease.holder.incarnation == request.actor.incarnation
  }

  /** The promise: what needs a lease under the policy in force is granted on one only. */
  ghost predicate LeasesAreRequired(m: Machine) {
    forall request, digest, written ::
      && EvaluateResult(m, request, digest, written).answer == Answered(Granted) && BeyondLocal(m, request)
      && LeaseRequired(PolicyInForce(m), request.requested)
      ==> RestsOnLiveLease(m, request)
  }

  /** Every check beyond local authority passes, the one for a lease aside. */
  ghost predicate AllButLease(q: Question) {
    var member := Actor(q);
    && Admissible(q) && Classify(q.catalog, q.request.requested.scope).Known? && member.Some?
    && HoldsFederationAuthority(member.value.derivation.lifecycle)
    && CompareIdentities(member.value.derivation.currentIdentity, q.request.actor) == Same
    && !BlockedBy(member.value.conflicts, q.request.requested)
    && GrantsCover(member.value.authority, q.request.requested)
    && Passes(NotSuspended, q) && Passes(MayMutate, q)
  }

  /** ... and the answer can still be put on record. */
  ghost predicate GrantableButForLease(m: Machine, request: Request) {
    && StateOf(InputsOf(m)).Some? && request.federation != NIL && |m.memory.replay| < MAX_REPLAY_ENTRIES
    && BeyondLocal(m, request) && AllButLease(Asked(m, request))
  }

  /** For everything grantable, the configured policy asks for a lease where the policy
      in force does. */
  ghost predicate ConfiguredAsksToo(m: Machine) {
    forall request ::
      GrantableButForLease(m, request) && LeaseRequired(PolicyInForce(m), request.requested)
      ==> LeaseRequired(m.config.policy, request.requested)
  }

  lemma DecidedButForLease(q: Question)
    requires Classify(q.catalog, q.request.requested.scope) != Known(Local)
    ensures Decide(q) == Granted <==> AllButLease(q) && Passes(LeasePresented, q)
    ensures AllButLease(q) ==> Admissible(q)
  {
    GrantedExactly(q);
    hide Decide, GrantsCover, BlockedBy, Admissible, Classify, LeaseRequired, LeaseHonoured, PartitionSuspends, FirstMember,
         CompareIdentities;
  }

  lemma UnrecordedRequest(m: Machine, request: Request)
    requires StateOf(InputsOf(m)).Some? && |m.memory.replay| <= MAX_REPLAY_ENTRIES && Admissible(Asked(m, request))
    ensures !HasReplay(m.memory.replay, request.id)
  {
    AskedFields(m, request);
    LedgerDropsNothing(m.memory.replay);
    hide StateOf, InputsOf, Ledger, Asked;
  }

  lemma GrantIsOnRecord(m: Machine, request: Request, digest: nat, written: bool)
    requires StateOf(InputsOf(m)).Some? && request.federation != NIL && !HasReplay(m.memory.replay, request.id)
    ensures EvaluateResult(m, request, digest, written).answer == Answered(Granted) <==>
            Decide(Asked(m, request)) == Granted && |m.memory.replay| < MAX_REPLAY_ENTRIES && written
  {
    hide StateOf, InputsOf, Decide, HasReplay;
  }

  /** An answer is GRANTED beyond local authority exactly when everything but the lease
      is in order, the lease step passes and the record could be written. */
  lemma GrantedButForLease(m: Machine, request: Request, digest: nat, written: bool)
    requires |m.memory.replay| <= MAX_REPLAY_ENTRIES && BeyondLocal(m, request)
    ensures EvaluateResult(m, request, digest, written).answer == Answered(Granted) <==>
            GrantableButForLease(m, request) && written && Passes(LeasePresented, Asked(m, request))
  {
    if StateOf(InputsOf(m)).Some? {
      AskedFields(m, request);
      DecidedButForLease(Asked(m, request));
      if request.federation != NIL && Admissible(Asked(m, request)) {
        UnrecordedRequest(m, request);
        GrantIsOnRecord(m, request, digest, written);
      }
    }
    if EvaluateResult(m, request, digest, written).answer == Answered(Granted) {
      AskedOverInputs(m, request, digest, written);
      GrantNamesSomebody(m, request, digest, written);
    }
    hide EvaluateResult, StateOf, InputsOf, Decide, Admissible, Passes, AllButLease, Asked, Classify, Asks, HasReplay;
  }

  lemma GrantNamesSomebody(m: Machine, request: Request, digest: nat, written: bool)
    requires EvaluateResult(m, request, digest, written).answer == Answered(Granted)
    ensures request.federation != NIL
  {
    hide StateOf, InputsOf, Decide;
  }

  lemma ReplayBound(m: Machine)
    requires MachineOk(m)
    ensures |m.memory.replay| <= MAX_REPLAY_ENTRIES
  {
    LogReads(m.log, m.config.federation);
    hide Read, LogOk;
  }

  lemma UnhonouredPasses(q: Question)
    requires !LeaseHonoured(q)
    ensures Passes(LeasePresented, q) <==> !LeaseRequired(q.policy, q.request.requested)
  {
    hide LeaseRequired, LeaseHonoured, Actor, Classify;
  }

  lemma UnleasedIsAsGrantable(m: Machine, request: Request)
    ensures GrantableButForLease(m, Unleased(request)) <==> GrantableButForLease(m, request)
  {
    if StateOf(InputsOf(m)).Some? {
      SameButLease(Asked(m, request), Asked(m, Unleased(request)));
    }
    hide StateOf, InputsOf, AllButLease, Classify;
  }

  lemma SameButLease(p: Question, q: Question)
    requires q == p.(request := Unleased(p.request))
    ensures AllButLease(q) <==> AllButLease(p)
  {
    SameActor(p, q);
    hide Actor, GrantsCover, BlockedBy, Classify, HasReplay, PartitionSuspends, CompareIdentities;
  }

  /** Without a lease the request is granted exactly when the configured policy asks for
      none, whatever the policy in force says. */
  lemma UnleasedGrant(m: Machine, request: Request, digest: nat, written: bool)
    requires MachineOk(m) && BeyondLocal(m, request) && request.lease == NoLease
    ensures EvaluateResult(m, request, digest, written).answer == Answered(Granted) <==>
            GrantableButForLease(m, request) && written && !LeaseRequired(m.config.policy, request.requested)
  {
    ReplayBound(m);
    GrantedButForLease(m, request, digest, written);
    if StateOf(InputsOf(m)).Some? {
      NoLeaseIsNotHonoured(Asked(m, request));
      UnhonouredPasses(Asked(m, request));
    }
    hide EvaluateResult, StateOf, InputsOf, AllButLease, Passes, LeaseRequired, MachineOk;
  }

  /** Everything that needs a lease under the policy in force rests on a live one exactly
      when, for what is otherwise grantable, the configured policy asks for a lease
      wherever the policy in force does. */
  lemma LeasesAreRequiredIff(m: Machine)
    requires MachineOk(m)
    ensures LeasesAreRequired(m) <==> ConfiguredAsksToo(m)
  {
    hide EvaluateResult, MachineOk, GrantableButForLease, LeaseRequired, PolicyInForce, BeyondLocal, RestsOnLiveLease;
    ReplayBound(m);
    if ConfiguredAsksToo(m) {
      forall request, digest, written
        | EvaluateResult(m, request, digest, written).answer == Answered(Granted) && BeyondLocal(m, request)
          && LeaseRequired(PolicyInForce(m), request.requested)
        ensures RestsOnLiveLease(m, request)
      {
        GrantedButForLease(m, request, digest, written);
        RequiredLeaseIsLive(m, request, digest, written);
      }
    } else {
      var request :| GrantableButForLease(m, request) && LeaseRequired(PolicyInForce(m), request.requested) &&
                     !LeaseRequired(m.config.policy, request.requested);
      UnleasedIsAsGrantable(m, request);
      GrantableIsBeyond(m, request);
      UnleasedGrant(m, Unleased(request), 0, true);
      NoLeaseNeverLive(m, Unleased(request));
      assert EvaluateResult(m, Unleased(request), 0, true).answer == Answered(Granted);
    }
  }

  lemma RequiredLeaseIsLive(m: Machine, request: Request, digest: nat, written: bool)
    requires MachineOk(m) && EvaluateResult(m, request, digest, written).answer == Answered(Granted)
    requires BeyondLocal(m, request) && LeaseRequired(m.config.policy, request.requested)
    ensures RestsOnLiveLease(m, request)
  {
    hide EvaluateResult, MachineOk, LeaseRequired, BeyondLocal, GrantsCover;
    GrantsRestOnLiveLeases(m, request, digest, written);
  }

  lemma GrantableIsBeyond(m: Machine, request: Request)
    requires GrantableButForLease(m, request)
    ensures BeyondLocal(m, request) && BeyondLocal(m, Unleased(request))
  {
    hide StateOf, InputsOf, AllButLease, Classify;
  }

  lemma NoLeaseNeverLive(m: Machine, request: Request)
    requires MachineOk(m) && request.lease == NoLease
    ensures !RestsOnLiveLease(m, request)
  {
    NoLeaseIsNoKey(m);
    hide MachineOk, GrantsCover;
  }

  // ---- the lifetime of leases -----------------------------------------------

  /** The promise: no lease issued now lasts longer than the policy in force allows. */
  ghost predicate LifetimesAreBounded(m: Machine) {
    forall wanted, written ::
      IssueResult(m, wanted, written).answer.Granting? ==>
        var lease := IssueResult(m, wanted, written).answer.lease;
        lease.notAfter - lease.issuedAt <= LeaseLifetime(PolicyInForce(m))
  }

  /** The longest lease the configured policy and the width of the clock leave room for. */
  function LongestLease(m: Machine): int {
    if LeaseLifetime(m.config.policy) <= U64_END - 1 - m.memory.tick then LeaseLifetime(m.config.policy)
    else U64_END - 1 - m.memory.tick
  }

  lemma IssuedLifetime(m: Machine, state: FederationState, wanted: LeaseRequest)
    requires LeaseFor(m, state, wanted).Granting?
    ensures var lease := LeaseFor(m, state, wanted).lease;
            0 < lease.notAfter - lease.issuedAt <= LongestLease(m)
    ensures var longest := wanted.(lifetime := LongestLease(m));
            && LeaseFor(m, state, longest).Granting?
            && LeaseFor(m, state, longest).lease.notAfter - LeaseFor(m, state, longest).lease.issuedAt == LongestLease(m)
  {
    hide FirstMember, GrantsCover, LeaseLifetime;
  }

  lemma IssuedAs(m: Machine, wanted: LeaseRequest, written: bool)
    ensures IssueResult(m, wanted, written).answer.Granting? <==>
            written && StateOf(InputsOf(m)).Some? && LeaseFor(m, StateOf(InputsOf(m)).value, wanted).Granting?
    ensures IssueResult(m, wanted, written).answer.Granting? ==>
              IssueResult(m, wanted, written).answer == LeaseFor(m, StateOf(InputsOf(m)).value, wanted)
  {
    hide StateOf, InputsOf, LeaseFor;
  }

  /** Somebody has federation authority with a grant in force to lease. */
  ghost predicate CouldHold(m: MemberState) {
    HoldsFederationAuthority(m.derivation.lifecycle) && m.authority != {}
  }

  /** A lease can be issued: the state is derivable, some member could hold one, the
      configured lifetime is not zero, the clock leaves room for a tick and the table for
      a lease. */
  ghost predicate CanLease(m: Machine) {
    && StateOf(InputsOf(m)).Some?
    && (exists member | member in StateOf(InputsOf(m)).value.members :: CouldHold(member))
    && LeaseLifetime(m.config.policy) > 0 && m.memory.tick + 1 < U64_END && |InputsOf(m).leases| < MAX_LEASES
  }

  lemma {:induction false} FirstOfDistinct(members: seq<MemberState>, member: MemberState)
    requires member in members
    requires forall j, k | 0 <= j < k < |members| :: members[j].member != members[k].member
    ensures FirstMember(members, member.member) == Some(member)
  {
    if members[0] != member {
      assert member in members[1..];
      FirstOfDistinct(members[1..], member);
    }
  }

  lemma MembersAreDistinct(i: Inputs)
    requires StateOf(i).Some?
    ensures var members := StateOf(i).value.members;
            forall j, k | 0 <= j < k < |members| :: members[j].member != members[k].member
  {
    StateMembers(i);
    MembersAscend(i);
    hide StateOf, WorldOf, MemberOf;
    var order := WorldOf(i).members;
    forall k | 0 <= k < |order| ensures MembersIn(i, order)[k].member == order[k] {
      NamedAsAsked(i, order[k]);
    }
  }

  lemma MembersAscend(i: Inputs)
    ensures StrictlyAscending(WorldOf(i).members)
  {
    hide Accepted, EffectivePolicy, Founder;
  }

  lemma CoveredIsHeld(authority: set<Grant>, g: Grant)
    ensures GrantsCover(authority, g) ==> authority != {}
  {
  }

  lemma Leasable(m: Machine, state: FederationState, member: MemberState, g: Grant)
    requires FirstMember(state.members, member.member) == Some(member) && CouldHold(member) && g in member.authority
    requires LeaseLifetime(m.config.policy) > 0 && m.memory.tick + 1 < U64_END && |state.leases| < MAX_LEASES
    ensures LeaseFor(m, state, LeaseRequest(member.member, [g], 0, 1)).Granting?
  {
    CoversItself(member.authority, g);
    hide FirstMember, GrantsCover, LeaseLifetime;
  }

  lemma LeasedHolder(m: Machine, state: FederationState, wanted: LeaseRequest)
    requires LeaseFor(m, state, wanted).Granting?
    ensures FirstMember(state.members, wanted.holder).Some?
    ensures CouldHold(FirstMember(state.members, wanted.holder).value)
    ensures LeaseLifetime(m.config.policy) > 0 && m.memory.tick + 1 < U64_END && |state.leases| < MAX_LEASES
  {
    hide FirstMember, GrantsCover, LeaseLifetime;
    CoveredIsHeld(FirstMember(state.members, wanted.holder).value.authority, wanted.scopes[0]);
    assert wanted.scopes[0] in wanted.scopes;
  }

  /** Some request is issued a lease exactly then. */
  lemma CanLeaseExactly(m: Machine)
    ensures (exists wanted :: IssueResult(m, wanted, true).answer.Granting?) <==> CanLease(m)
  {
    hide StateOf, InputsOf, LeaseFor, IssueResult, LeaseLifetime, CouldHold;
    var derived := StateOf(InputsOf(m));
    if derived.Some? {
      StateLeases(InputsOf(m));
      MembersAreDistinct(InputsOf(m));
    }
    if wanted :| IssueResult(m, wanted, true).answer.Granting? {
      IssuedAs(m, wanted, true);
      LeasedHolder(m, derived.value, wanted);
      FoundMember(derived.value.members, wanted.holder);
    }
    if CanLease(m) {
      var member :| member in derived.value.members && CouldHold(member);
      FirstOfDistinct(derived.value.members, member);
      var g := SomeGrant(member);
      Leasable(m, derived.value, member, g);
      IssuedAs(m, LeaseRequest(member.member, [g], 0, 1), true);
    }
  }

  lemma SomeGrant(member: MemberState) returns (g: Grant)
    requires CouldHold(member)
    ensures g in member.authority
  {
    g :| g in member.authority;
  }

  /** Leases keep to the lifetime of the policy in force exactly when none can be issued
      at all or the longest one the configured policy allows does. */
  lemma LifetimesAreBoundedIff(m: Machine)
    ensures LifetimesAreBounded(m) <==> (CanLease(m) ==> LongestLease(m) <= LeaseLifetime(PolicyInForce(m)))
  {
    hide StateOf, InputsOf, LeaseFor, IssueResult, LeaseLifetime, PolicyInForce, LongestLease, CanLease;
    CanLeaseExactly(m);
    if CanLease(m) {
      var wanted :| IssueResult(m, wanted, true).answer.Granting?;
      IssuedAs(m, wanted, true);
      IssuedLifetime(m, StateOf(InputsOf(m)).value, wanted);
      IssuedAs(m, wanted.(lifetime := LongestLease(m)), true);
    }
    forall wanted, written | IssueResult(m, wanted, written).answer.Granting?
      ensures CanLease(m)
      ensures var lease := IssueResult(m, wanted, written).answer.lease; lease.notAfter - lease.issuedAt <= LongestLease(m)
    {
      IssuedAs(m, wanted, written);
      assert written;
      IssuedLifetime(m, StateOf(InputsOf(m)).value, wanted);
    }
  }

  // ---- a run ----------------------------------------------------------------

  /** An accepted update that asks for a lease on the scope and bounds leases to ten. */
  const UPDATE: Artifact :=
    Artifact(3, PolicyUpdate, 1, NIL, 7, 1,
             Body(NO_DECLARATION, NO_IDENTITY, NO_DECLARATION,
                  Policy(2, [Rule(RequireLease, true, 0, SCOPE, 0, []), Rule(MaxLeaseLifetimeTicks, true, 10, "", 0, [])], 0),
                  2, 1, 0, [], [], OtherReason, 1, 0))

  lemma OnlyUpdate(config: Config, d: Declaration)
    requires Extra(config, d, [UPDATE])
    ensures OfKind(Records(config, d, [UPDATE]), PolicyUpdate) == [UPDATE]
  {
    RecordsInOrder(config, d, [UPDATE]);
    var records := Records(config, d, [UPDATE]);
    OfKindKeepsOrder(records, PolicyUpdate);
    assert records == [GenesisRecord(config, d), ActivationRecord(config, d), UPDATE];
    hide OfKind, Records;
    SingleInOrder(OfKind(records, PolicyUpdate), UPDATE);
  }

  lemma OnePicked(a: Artifact)
    ensures Pick([a], NewerPolicy) == Some(a)
  {
    assert Pick([a][..0], NewerPolicy).None?;
  }

  lemma UpdateIsInForce(i: Inputs, config: Config, d: Declaration)
    requires Extra(config, d, [UPDATE]) && Accepted(i) == Records(config, d, [UPDATE])
    ensures WorldOf(i).policy == UPDATE.body.policy
  {
    hide Accepted, OfKind, Records, MemberOrder, Founder, Pick, Genesis, Extra;
    OnlyUpdate(config, d);
    OnePicked(UPDATE);
  }

  lemma UpdatedPolicy()
    ensures var policy := UPDATE.body.policy;
            && LeaseRequired(policy, Offer(0).grant) && LeaseLifetime(policy) == 10
            && MandatoryCapabilities(policy) == {} && !DelegationForbidden(policy, SCOPE) && Quiet([UPDATE])
  {
    var rules := UPDATE.body.policy.rules;
    assert NamesScope(rules[0], RequireLease, SCOPE);
    LastValueIsLast(rules, MaxLeaseLifetimeTicks, DEFAULT_LEASE_LIFETIME, 1);
  }

  ghost function UpdatedSteps(config: Config): seq<Step> {
    FoundingSteps(config, Records(config, Charter(0), [UPDATE]))
  }

  lemma UpdatedMachine(config: Config)
    requires Plain(config, Charter(0), [UPDATE])
    ensures var m := Founded(config, Records(config, Charter(0), [UPDATE]));
            && IsRun(UpdatedSteps(config), 1) && Final(UpdatedSteps(config)) == Up(m) && MachineOk(m)
            && PolicyInForce(m) == UPDATE.body.policy
            && Hosts(m, Charter(0), Offer(0), [UPDATE]) && InForce(InputsOf(m), Charter(0), Offer(0))
            && EpochOf(Accepted(InputsOf(m))) == 1
  {
    UpdatedRun(config);
    UpdatedTerm(Founded(config, Records(config, Charter(0), [UPDATE])));
    assert Founded(config, Records(config, Charter(0), [UPDATE])).config == config;
    hide *;
  }

  lemma UpdatedRun(config: Config)
    requires Plain(config, Charter(0), [UPDATE])
    ensures IsRun(UpdatedSteps(config), 1)
    ensures Final(UpdatedSteps(config)) == Up(Founded(config, Records(config, Charter(0), [UPDATE])))
    ensures MachineOk(Founded(config, Records(config, Charter(0), [UPDATE])))
  {
    RecordsInOrder(config, Charter(0), [UPDATE]);
    FoundingRun(config, Records(config, Charter(0), [UPDATE]));
    RunsKeepAgreement(UpdatedSteps(config), 1, |UpdatedSteps(config)|);
    hide FoundingSteps, WorldAt, MachineOk, Records, Founded;
  }

  lemma UpdatedTerm(m: Machine)
    requires Plain(m.config, Charter(0), [UPDATE]) && m.memory.artifacts == Records(m.config, Charter(0), [UPDATE])
    requires m.memory.leases == map[]
    ensures PolicyInForce(m) == UPDATE.body.policy && EpochOf(Accepted(InputsOf(m))) == 1
    ensures Hosts(m, Charter(0), Offer(0), [UPDATE]) && InForce(InputsOf(m), Charter(0), Offer(0))
  {
    hide InputsOf, Accepted, EpochOf, Records, Hosts, InForce, MandatoryCapabilities, DelegationForbidden, LeaseRequired,
         LeaseLifetime, WorldOf, Extra, PolicyInForce, Quiet;
    UpdatedPolicy();
    AcceptedAsRecorded(m, Charter(0), [UPDATE]);
    UpdateIsInForce(InputsOf(m), m.config, Charter(0));
    PolicyInForceIs(m);
    QuietTerm(m, 0, [UPDATE]);
  }

  lemma PolicyInForceIs(m: Machine)
    ensures PolicyInForce(m) == WorldOf(InputsOf(m)).policy
  {
    hide WorldOf, InputsOf;
  }

  /** The policy in force asks for a lease and the configured one does not: the founder
      is granted its mutating grant without any lease, and is issued a lease of a hundred
      thousand ticks where ten are allowed. */
  lemma UpdatedPolicyIsNotAsked(config: Config)
    requires Plain(config, Charter(0), [UPDATE])
    ensures var w := Final(UpdatedSteps(config));
            var grant := Offer(0).grant;
            && IsRun(UpdatedSteps(config), 1) && w.Up?
            && LeaseRequired(PolicyInForce(w.machine), grant) && LeaseLifetime(PolicyInForce(w.machine)) == 10
            && BeyondLocal(w.machine, Ask(1, 0, 1)) && Ask(1, 0, 1).requested == grant && Ask(1, 0, 1).lease == NoLease
            && EvaluateResult(w.machine, Ask(1, 0, 1), 0, true).answer == Answered(Granted)
            && !LeasesAreRequired(w.machine)
            && IssueResult(w.machine, LeaseRequest(7, [grant], 1, 100000), true).answer.Granting?
            && !LifetimesAreBounded(w.machine)
  {
    UpdatedMachine(config);
    UpdatedPolicy();
    NoRules(config.policy, Offer(0).grant);
    ScopeIsFederation(config.catalog);
    var m := Founded(config, Records(config, Charter(0), [UPDATE]));
    assert m.config == config && m.memory.tick == 1 && m.memory.replay == [] && m.memory.leases == map[];
    PlainFresh(m, 0, Ask(1, 0, 1));
    FounderAsksFor(m, Charter(0), Offer(0), [UPDATE], Ask(1, 0, 1), 0);
    NoLeaseNeverLive(m, Ask(1, 0, 1));
    NoLeasesListed(config.federation);
    InputLists(m);
    FounderLeases(m, Charter(0), Offer(0), [UPDATE], LeaseRequest(7, [Offer(0).grant], 1, 100000));
    hide Founded, WorldAt, UpdatedSteps, Plain, Hosts, InForce, InputsOf, Accepted, EpochOf, EvaluateResult, IssueResult,
         LeaseRequired, LeaseLifetime, PolicyInForce, MachineOk, RestsOnLiveLease, WorldOf;
  }
}
