// Expired delegation terms across a restart: what a restart changes in the derived
// state, exactly when it puts an expired term back in force, and a run in which it does.
module Expiry {
  import opened Sequences
  import opened Scopes
  import opened Policies
  import opened Identities
  import opened Evidence
  import opened Membership
  import opened Partition
  import opened Leases
  import opened State
  import opened StateProperties
  import opened Authority
  import opened Coordination
  import opened Runs
  import opened Restarts
  import opened Clocks
  import opened Founding
  import Standing

  // ---- what a restart leaves alone ------------------------------------------

  lemma {:induction false} SameHolders(a: seq<Lease>, b: seq<Lease>)
    requires |a| == |b| && forall k | 0 <= k < |a| :: a[k].holder == b[k].holder
    ensures Holders(a) == Holders(b)
  {
    if a != [] {
      SameHolders(a[..|a| - 1], b[..|b| - 1]);
    }
  }

  lemma ListedHolders(a: map<LeaseId, Lease>, b: map<LeaseId, Lease>, federation: Id)
    requires a.Keys == b.Keys && forall id | id in a :: a[id].holder == b[id].holder
    ensures Holders(LeasesOf(a, federation)) == Holders(LeasesOf(b, federation))
  {
    assert Counters(a, federation) == Counters(b, federation);
    hide Ascending;
    forall k | 0 <= k < |LeasesOf(a, federation)|
      ensures LeasesOf(a, federation)[k].holder == LeasesOf(b, federation)[k].holder
    {
      var counter := Ascending(Counters(a, federation))[k];
      assert counter in Counters(a, federation);
      CounterIsKey(a, federation, counter);
    }
    SameHolders(LeasesOf(a, federation), LeasesOf(b, federation));
  }

  /** The same evidence, observations and lease holders at possibly another time, under
      possibly another incarnation. */
  ghost predicate SameButTime(i: Inputs, j: Inputs) {
    && SameGround(i, j) && j.observations == i.observations && j.catalog == i.catalog && j.compatible == i.compatible
  }

  lemma RestartKeepsInputs(m: Machine)
    requires MachineOk(m) && |m.log| <= MAX_RECORDS
    ensures Restarted(m).Up? && SameButTime(InputsOf(m), InputsOf(Restarted(m).machine))
    ensures InputsOf(Restarted(m).machine).replay == m.memory.replay
    ensures InputsOf(Restarted(m).machine).logicalTime == Restarted(m).machine.memory.tick
  {
    ClockAfterRestart(m);
    RestartRestores(m, m.config);
    hide MachineOk, Restarted, Recover, Read, LogOk, LeasesOf, ObservationsOf, Holders;
    var after := Restarted(m).machine.memory;
    forall id | id in m.memory.leases ensures m.memory.leases[id].holder == after.leases[id].holder {
    }
    ListedHolders(m.memory.leases, after.leases, m.config.federation);
  }

  lemma StandingIgnoresTime(i: Inputs, j: Inputs)
    requires SameButTime(i, j)
    ensures Accepted(j) == Accepted(i) && WorldOf(j) == WorldOf(i) && ActiveMembers(j) == ActiveMembers(i)
    ensures forall m :: StandingDerivation(j, m) == StandingDerivation(i, m)
  {
    GroundDecides(i, j);
    hide Accepted, WorldOf, EpochOf, Derive, Standing.Rounds, Standing.About, Filtered, Holders;
  }

  lemma ReconcilingIgnoresTime(i: Inputs, j: Inputs)
    requires SameButTime(i, j)
    ensures IsReconciling(j) == IsReconciling(i)
    ensures FinalContext(j) == FinalContext(i).(partition := PartitionOf(j).state)
  {
    StandingIgnoresTime(i, j);
    hide Accepted, WorldOf, ActiveMembers, StandingDerivation, EpochOf, PartitionOf, Recovery, ReconciliationRecorded,
         Standing.Established, SameGround;
  }

  lemma PartitionOnlyDegrades(member: Id, about: seq<Artifact>, ctx: Context, p: PartitionState)
    ensures var before, after := Derive(member, about, ctx), Derive(member, about, ctx.(partition := p));
            && after.withdrawn == before.withdrawn && after.delegatedTerms == before.delegatedTerms
            && (HoldsFederationAuthority(after.lifecycle) <==> HoldsFederationAuthority(before.lifecycle))
  {
    Standing.DerivedLifecycle(member, about, ctx);
    Standing.DerivedLifecycle(member, about, ctx.(partition := p));
    SuspensionOnlyDegrades(member, about, ctx, ctx.partition, ctx.reconciling);
    SuspensionOnlyDegrades(member, about, ctx, p, ctx.reconciling);
    assert ctx.(partition := ctx.partition, reconciling := ctx.reconciling) == ctx;
    assert ctx.(partition := p, reconciling := ctx.reconciling) == ctx.(partition := p);
    hide LifecycleOf, WithdrawnBy, TermsOf, LineageOf, Operative, CurrentIdentity, AdmissionValid, Has;
  }

  /** Of a member's derivation, the time can only change Active into Degraded and back. */
  lemma DerivationKeeps(i: Inputs, j: Inputs, member: Id)
    requires SameButTime(i, j)
    ensures var before, after := DerivationOf(i, member), DerivationOf(j, member);
            && after.withdrawn == before.withdrawn && after.delegatedTerms == before.delegatedTerms
            && (HoldsFederationAuthority(after.lifecycle) <==> HoldsFederationAuthority(before.lifecycle))
  {
    StandingIgnoresTime(i, j);
    ReconcilingIgnoresTime(i, j);
    PartitionOnlyDegrades(member, Standing.About(Accepted(i), member), FinalContext(i), PartitionOf(j).state);
    hide Accepted, WorldOf, FinalContext, PartitionOf, Derive, Standing.About, SameGround;
  }

  lemma {:induction false} SameLiveClaims(a: seq<MemberState>, b: seq<MemberState>)
    requires |a| == |b|
    requires forall k | 0 <= k < |a| ::
               && a[k].member == b[k].member && a[k].derivation.delegatedTerms == b[k].derivation.delegatedTerms
               && (HoldsFederationAuthority(a[k].derivation.lifecycle) <==> HoldsFederationAuthority(b[k].derivation.lifecycle))
    ensures LiveClaims(a) == LiveClaims(b)
  {
    if a != [] {
      SameLiveClaims(a[..|a| - 1], b[..|b| - 1]);
    }
  }

  lemma ClaimsIgnoreTime(i: Inputs, j: Inputs)
    requires SameButTime(i, j)
    ensures ClaimsIn(j) == ClaimsIn(i)
  {
    StandingIgnoresTime(i, j);
    hide Accepted, WorldOf, DerivationOf, PartitionOf, LiveClaims, SameGround;
    var order := WorldOf(i).members;
    forall k | 0 <= k < |order| {
      DerivationKeeps(i, j, order[k]);
    }
    SameLiveClaims(BareMembers(i, order), BareMembers(j, order));
  }

  // ---- terms in force -------------------------------------------------------

  ghost predicate InForceFor(i: Inputs, member: Id, t: Terms) {
    && t in DerivationOf(i, member).delegatedTerms
    && DispositionOf(RegimeOf(i), member, DerivationOf(i, member), t) == GrantedNow
  }

  ghost predicate Expired(i: Inputs, t: Terms) {
    t.notAfter != 0 && ClockOf(Accepted(i), i.logicalTime) > t.notAfter
  }

  /** Everything a term in force takes apart from its expiry and the suspensions. */
  ghost predicate Entitled(i: Inputs, member: Id, t: Terms) {
    var d, policy := DerivationOf(i, member), WorldOf(i).policy;
    var class_, dispute := Classify(i.catalog, t.grant.scope), DisputeOver(ClaimsIn(i), policy, t.grant);
    && t in d.delegatedTerms && class_.Known? && class_ != Known(Local)
    && !DelegationForbidden(policy, t.grant.scope) && !GrantsCover(d.withdrawn, t.grant)
    && (dispute == Undisputed || dispute == WonBy(member))
    && HoldsFederationAuthority(d.lifecycle)
  }

  /** Suspended or degraded, which the partition of the moment decides. */
  ghost predicate Hindered(i: Inputs, member: Id, t: Terms) {
    || (Classify(i.catalog, t.grant.scope) == Known(GlobalMutation) && GlobalMutationSuspended(RegimeOf(i)))
    || (DerivationOf(i, member).lifecycle == Degraded && Mutating(t.grant.verb))
  }

  lemma InForceExactly(i: Inputs, member: Id, t: Terms)
    ensures InForceFor(i, member, t) <==> Entitled(i, member, t) && !Expired(i, t) && !Hindered(i, member, t)
  {
    RegimeFields(i);
    TermGrantedExactly(RegimeOf(i), member, DerivationOf(i, member), t);
    hide Accepted, WorldOf, DerivationOf, RegimeOf, DispositionOf, ClaimsIn, DisputeOver, IsReconciling, PartitionOf,
         Classify, DelegationForbidden, ClockOf, GlobalMutationSuspended, GrantsCover;
  }

  lemma EntitlementKeeps(i: Inputs, j: Inputs, member: Id, t: Terms)
    requires SameButTime(i, j)
    ensures Entitled(j, member, t) <==> Entitled(i, member, t)
  {
    StandingIgnoresTime(i, j);
    DerivationKeeps(i, j, member);
    ClaimsIgnoreTime(i, j);
    hide Accepted, WorldOf, DerivationOf, ClaimsIn, DisputeOver, Classify, DelegationForbidden, GrantsCover, SameGround;
  }

  // ---- revival --------------------------------------------------------------

  /** Nothing that survives a crash names a tick beyond this one: no record, no accepted
      artefact, not the configuration. */
  ghost predicate NothingDurableBeyond(m: Machine, tick: nat) {
    && m.config.initialTick <= tick && NoRecordBeyond(m.log, tick)
    && forall a | a in Accepted(InputsOf(m)) :: a.body.logicalTime <= tick
  }

  lemma ClockAtMost(accepted: seq<Artifact>, start: nat, tick: nat)
    ensures ClockOf(accepted, start) <= tick <==> start <= tick && forall a | a in accepted :: a.body.logicalTime <= tick
  {
    ClockIsLargestTime(accepted, start);
    hide ClockOf;
  }

  lemma RecoveredClock(m: Machine, tick: nat)
    requires MachineOk(m) && |m.log| <= MAX_RECORDS
    ensures Restarted(m).Up?
    ensures var i, j := InputsOf(m), InputsOf(Restarted(m).machine);
            && (ClockOf(Accepted(j), j.logicalTime) <= tick <==> NothingDurableBeyond(m, tick))
            && (ClockOf(Accepted(j), j.logicalTime) <= tick < ClockOf(Accepted(i), i.logicalTime) <==>
                NothingDurableBeyond(m, tick) && tick < m.memory.tick)
  {
    hide MachineOk, Restarted, Recover, InputsOf, Accepted, ClockOf, NoRecordBeyond, SameGround, WorldOf, StandingDerivation;
    RestartKeepsInputs(m);
    ClockAfterRestart(m);
    InputFields(m);
    var i, j := InputsOf(m), InputsOf(Restarted(m).machine);
    SameAcceptedLater(i, j);
    ClockAtMost(Accepted(i), i.logicalTime, tick);
    ClockAtMost(Accepted(i), j.logicalTime, tick);
    assert j.logicalTime <= tick <==> m.config.initialTick <= tick && NoRecordBeyond(m.log, tick);
  }

  lemma SameAcceptedLater(i: Inputs, j: Inputs)
    requires SameButTime(i, j)
    ensures Accepted(j) == Accepted(i)
  {
    hide SameButTime, Accepted, WorldOf;
    StandingIgnoresTime(i, j);
  }

  /** The inputs of now, read at the tick a restart resumes at: all that is known of the
      time after a crash before it. */
  ghost function AtRecovery(m: Machine): Inputs {
    InputsOf(m).(logicalTime := RecoveredTick(m))
  }

  lemma SamePartitionAtSameTime(i: Inputs, j: Inputs)
    requires SameButTime(i, j) && j.logicalTime == i.logicalTime
    ensures PartitionOf(j) == PartitionOf(i)
  {
    StandingIgnoresTime(i, j);
    hide Accepted, WorldOf, ActiveMembers, StandingDerivation, EpochOf, ClockOf, AssessmentOf, SameGround;
    assert Incarnations(i, ActiveMembers(i)) == Incarnations(j, ActiveMembers(j));
  }

  lemma SameDerivationAtSameTime(i: Inputs, j: Inputs, member: Id)
    requires SameButTime(i, j) && j.logicalTime == i.logicalTime
    ensures DerivationOf(j, member) == DerivationOf(i, member)
  {
    StandingIgnoresTime(i, j);
    ReconcilingIgnoresTime(i, j);
    SamePartitionAtSameTime(i, j);
    assert FinalContext(i).(partition := PartitionOf(i).state) == FinalContext(i) by {
      hide PartitionOf, IsReconciling, WorldOf, EpochOf, Standing.Established;
    }
    hide Accepted, WorldOf, FinalContext, PartitionOf, Derive, Standing.About, SameGround;
  }

  lemma HindranceAtSameTime(i: Inputs, j: Inputs, member: Id, t: Terms)
    requires SameButTime(i, j) && j.logicalTime == i.logicalTime
    ensures Hindered(j, member, t) <==> Hindered(i, member, t)
    ensures Expired(j, t) <==> Expired(i, t)
  {
    StandingIgnoresTime(i, j);
    ReconcilingIgnoresTime(i, j);
    SamePartitionAtSameTime(i, j);
    SameDerivationAtSameTime(i, j, member);
    RegimeFields(i);
    RegimeFields(j);
    hide Accepted, WorldOf, FinalContext, PartitionOf, DerivationOf, RegimeOf, IsReconciling, Classify, SameGround, ClockOf,
         SuspendsOnPartition, SuspendsWhileReconciling;
  }

  lemma RestartedReads(m: Machine)
    requires MachineOk(m) && |m.log| <= MAX_RECORDS
    ensures Restarted(m).Up?
    ensures SameButTime(InputsOf(m), AtRecovery(m)) && SameButTime(AtRecovery(m), InputsOf(Restarted(m).machine))
    ensures InputsOf(Restarted(m).machine).logicalTime == AtRecovery(m).logicalTime == RecoveredTick(m)
  {
    RestartKeepsInputs(m);
    ClockAfterRestart(m);
    hide MachineOk, Restarted, Recover, InputsOf, RecoveredTick, Holders;
  }

  /** What is in force after a crash and a restart is what is in force now read at the
      recovered tick. */
  lemma InForceAfterRestart(m: Machine, member: Id, t: Terms)
    requires MachineOk(m) && |m.log| <= MAX_RECORDS
    ensures Restarted(m).Up?
    ensures InForceFor(InputsOf(Restarted(m).machine), member, t) <==>
            Entitled(InputsOf(m), member, t) && !Expired(AtRecovery(m), t) && !Hindered(AtRecovery(m), member, t)
  {
    RestartedReads(m);
    var i, now, j := InputsOf(m), AtRecovery(m), InputsOf(Restarted(m).machine);
    EntitlementKeeps(i, now, member, t);
    EntitlementKeeps(now, j, member, t);
    HindranceAtSameTime(now, j, member, t);
    InForceExactly(j, member, t);
    hide MachineOk, Restarted, AtRecovery, InputsOf, SameButTime, InForceFor, Entitled, Hindered, Expired;
  }

  /** A crash and a restart put a term back in force that had expired exactly when it is
      otherwise in order, nothing hinders it at the recovered tick, and its deadline lies
      behind the tick in memory while nothing durable names a tick beyond it; that is,
      when the recovered clock is at most the deadline and the clock before the crash was
      past it. All of it is read off the machine before the crash. */
  lemma RestartRevivesIff(m: Machine, member: Id, t: Terms)
    requires MachineOk(m) && |m.log| <= MAX_RECORDS
    ensures Restarted(m).Up?
    ensures var i, j := InputsOf(m), InputsOf(Restarted(m).machine);
            && (Expired(i, t) && InForceFor(j, member, t) <==>
                && Entitled(i, member, t) && !Hindered(AtRecovery(m), member, t)
                && t.notAfter != 0 && t.notAfter < m.memory.tick && NothingDurableBeyond(m, t.notAfter))
            && (Entitled(i, member, t) && !Hindered(AtRecovery(m), member, t) && t.notAfter != 0 ==>
                (Expired(i, t) && InForceFor(j, member, t) <==>
                 ClockOf(Accepted(j), j.logicalTime) <= t.notAfter < ClockOf(Accepted(i), i.logicalTime)))
  {
    RestartKeepsInputs(m);
    RecoveredClock(m, t.notAfter);
    RestartedReads(m);
    var i, j := InputsOf(m), InputsOf(Restarted(m).machine);
    EntitlementKeeps(i, j, member, t);
    HindranceAtSameTime(AtRecovery(m), j, member, t);
    InForceExactly(j, member, t);
    hide MachineOk, Restarted, InputsOf, Accepted, ClockOf, NothingDurableBeyond, SameButTime, InForceFor, Entitled, Hindered,
         AtRecovery;
  }

  // ---- a run ----------------------------------------------------------------

  /** Founded with a term that is good until tick one; an observation moves the clock to
      two; a crash and a start move it back. */
  ghost function RevivalSteps(config: Config): seq<Step> {
    FoundingSteps(config, Records(config, Charter(1), [])) +
    [Call(ReportObservation(SOME_OBSERVATION), true)] + [Crash] + [Start(config, true)]
  }

  /** The founding machine after one observation. */
  ghost function Observed(m: Machine): Machine {
    ObserveResult(m, SOME_OBSERVATION, true).machine
  }

  lemma ObservedFields(m: Machine)
    ensures Next(Up(m), Call(ReportObservation(SOME_OBSERVATION), true)).world == Up(Observed(m))
    ensures var o := Observed(m);
            && o.config == m.config && o.memory.artifacts == m.memory.artifacts && o.memory.leases == m.memory.leases
            && o.memory.replay == m.memory.replay && o.memory.tick == m.memory.tick + 1
            && Read(o.log).tick == Read(m.log).tick && |o.log| == |m.log| + 1
  {
    AppendedTick(m.log, ObservationEvent(SOME_OBSERVATION));
    hide Read;
  }

  lemma RevivalWorlds(config: Config)
    requires Plain(config, Charter(1), [])
    ensures var steps := RevivalSteps(config);
            var m := Observed(Founded(config, Records(config, Charter(1), [])));
            && IsRun(steps, 1) && |steps| > 3 && WorldAt(steps, |steps| - 2) == Up(m)
            && WorldAt(steps, |steps|) == Restarted(m) && MachineOk(m)
  {
    var records := Records(config, Charter(1), []);
    var founding := FoundingSteps(config, records);
    RecordsInOrder(config, Charter(1), []);
    FoundingRun(config, records);
    var observe := Call(ReportObservation(SOME_OBSERVATION), true);
    var m := Observed(Founded(config, records));
    ObservedFields(Founded(config, records));
    var a, b := founding + [observe], founding + [observe] + [Crash];
    FinalStep(founding, observe);
    FinalStep(a, Crash);
    FinalStep(b, Start(config, true));
    SameWorlds(RevivalSteps(config), a, |a|);
    RunsKeepAgreement(a, 1, |a|);
    hide Next, WorldAt, MachineOk, Founded, FoundingSteps, Records, Observed;
    assert m.config == config;
  }

  /** A term that had expired is granted again after a restart: asked before the crash,
      the request is not granted; asked after it, it is. */
  lemma ExpiredTermIsGrantedAfterRestart(config: Config)
    requires Plain(config, Charter(1), [])
    ensures var steps := RevivalSteps(config);
            var before, after := WorldAt(steps, |steps| - 2), WorldAt(steps, |steps|);
            && IsRun(steps, 1) && before.Up? && after.Up?
            && Expired(InputsOf(before.machine), Offer(1))
            && EvaluateResult(before.machine, Ask(1, 1, 1), 0, true).answer != Answered(Granted)
            && EvaluateResult(after.machine, Ask(1, 1, 1), 0, true).answer == Answered(Granted)
  {
    RevivalWorlds(config);
    var m := Observed(Founded(config, Records(config, Charter(1), [])));
    ObservedFields(Founded(config, Records(config, Charter(1), [])));
    FoundingRecordsNoTick(Records(config, Charter(1), []));
    AfterTheObservation(m);
    hide *;
  }

  lemma AfterTheObservation(m: Machine)
    requires Plain(m.config, Charter(1), []) && MachineOk(m) && |m.log| <= 4
    requires m.memory.artifacts == Records(m.config, Charter(1), []) && m.memory.leases == map[] && m.memory.replay == []
    requires m.memory.tick == 2 && Read(m.log).tick == 0
    ensures Restarted(m).Up?
    ensures Expired(InputsOf(m), Offer(1))
    ensures EvaluateResult(m, Ask(1, 1, 1), 0, true).answer != Answered(Granted)
    ensures EvaluateResult(Restarted(m).machine, Ask(1, 1, 1), 0, true).answer == Answered(Granted)
  {
    RestartRestores(m, m.config);
    ClockAfterRestart(m);
    ReadTickIsHighest(m.log, 1);
    PlainAsk(m);
    NothingLeft(m);
    PlainAsk(Restarted(m).machine);
    hide *;
  }

  lemma NothingLeft(m: Machine)
    requires MachineOk(m) && |m.log| <= MAX_RECORDS && m.memory.leases == map[]
    ensures Recover(m.log, m.config).Some? && Recover(m.log, m.config).value.leases == map[]
  {
    RestartRestores(m, m.config);
    hide MachineOk, Recover, Read;
    assert Recover(m.log, m.config).value.leases.Keys == {};
  }

  lemma PlainClock(m: Machine)
    requires Plain(m.config, Charter(1), []) && m.memory.artifacts == Records(m.config, Charter(1), [])
    requires m.memory.leases == map[]
    ensures ClockOf(Accepted(InputsOf(m)), m.memory.tick) <= 1 <==> m.memory.tick <= 1
    ensures Expired(InputsOf(m), Offer(1)) <==> m.memory.tick > 1
  {
    PlainTerm(m, 1, []);
    HostsAlone(m, Charter(1), Offer(1), []);
    InputFields(m);
    FoundingTimes(m.config, Charter(1));
    assert m.config.initialTick == 1 by { hide Extra; }
    ClockAtMost(Records(m.config, Charter(1), []), m.memory.tick, 1);
    assert Expired(InputsOf(m), Offer(1)) <==> ClockOf(Accepted(InputsOf(m)), InputsOf(m).logicalTime) > 1 by {
      hide InputsOf, Accepted, ClockOf, Hosts, Records, Lone, InForce, Plain;
    }
    hide *;
  }

  lemma FoundingTimes(config: Config, d: Declaration)
    ensures forall a | a in Records(config, d, []) :: a.body.logicalTime == config.initialTick
  {
  }

  lemma PlainAsk(m: Machine)
    requires Plain(m.config, Charter(1), []) && m.memory.artifacts == Records(m.config, Charter(1), [])
    requires m.memory.leases == map[] && m.memory.replay == []
    ensures Expired(InputsOf(m), Offer(1)) <==> m.memory.tick > 1
    ensures EvaluateResult(m, Ask(1, 1, 1), 0, true).answer == Answered(Granted) <==> m.memory.tick <= 1
  {
    PlainTerm(m, 1, []);
    PlainClock(m);
    PlainFresh(m, 1, Ask(1, 1, 1));
    NoRules(m.config.policy, Offer(1).grant);
    ScopeIsFederation(m.config.catalog);
    assert Plain(m.config, Charter(1), []) && Offer(1).grant.scope == SCOPE && Offer(1).notAfter == 1;
    assert m.config.policy.rules == [] && m.config.catalog == map[SCOPE := Federation];
    FounderAsksFor(m, Charter(1), Offer(1), [], Ask(1, 1, 1), 0);
    hide *;
  }
}
