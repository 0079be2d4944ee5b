// Leases, revocations, the clock and the epoch over whole runs of the coordinator.
module Restarts {
  import opened Sequences
  import opened Scopes
  import Names
  import opened Policies
  import opened Identities
  import opened Evidence
  import opened Membership
  import opened Partition
  import opened Leases
  import opened State
  import opened StateProperties
  import opened Authority
  import opened Coordination
  import opened Runs
  import Standing

  // ---- lease identifiers ----------------------------------------------------

  ghost predicate IssuesLease(steps: seq<Step>, k: nat, lease: Lease)
    requires k < |steps|
  {
    && steps[k].Call? && steps[k].op.Issue? && WorldAt(steps, k).Up?
    && AnswerAt(steps, k) == Granting(lease)
  }

  lemma IssuedLease(m: Machine, wanted: LeaseRequest, written: bool, lease: Lease)
    requires MachineOk(m) && IssueResult(m, wanted, written).answer == Granting(lease)
    ensures lease.id == LeaseId(m.config.federation, m.memory.leaseSequence)
    ensures lease.id !in Read(m.log).leases
    ensures Read(IssueResult(m, wanted, written).machine.log).leases == Read(m.log).leases[lease.id := lease]
  {
    CounterIsFresh(m);
    var state := StateOf(InputsOf(m));
    LeaseForBinds(m, state.value, wanted);
    ReadAppended(m.log, LeaseEvent(lease));
    hide StateOf, InputsOf, LeaseFor, Read, LogOk;
  }

  lemma IssueStep(steps: seq<Step>, k: nat, lease: Lease)
    requires k < |steps| && IssuesLease(steps, k, lease)
    ensures var r := IssueResult(WorldAt(steps, k).machine, steps[k].op.wanted, steps[k].written);
            LogOf(WorldAt(steps, k + 1)) == r.machine.log && r.answer == Granting(lease)
  {
    hide IssueResult, Recover;
  }

  lemma MachineKeys(m: Machine)
    requires MachineOk(m)
    ensures m.memory.leases.Keys == Read(m.log).leases.Keys
  {
    hide Read, LogOk;
  }

  lemma IssueAddsKey(steps: seq<Step>, federation: Id, k: nat, lease: Lease)
    requires IsRun(steps, federation) && k < |steps| && IssuesLease(steps, k, lease)
    ensures lease.id !in WorldAt(steps, k).machine.memory.leases
    ensures WorldAt(steps, k).machine.memory.leases.Keys == Read(LogOf(WorldAt(steps, k))).leases.Keys
    ensures lease.id in Read(LogOf(WorldAt(steps, k + 1))).leases
  {
    RunsKeepAgreement(steps, federation, k);
    IssueStep(steps, k, lease);
    hide Read, IssueResult, MachineOk, WorldAt, AnswerAt;
    var m := WorldAt(steps, k).machine;
    MachineKeys(m);
    IssuedLease(m, steps[k].op.wanted, steps[k].written, lease);
  }

  /** No lease identifier is issued twice in a run, restarts included: each issue adds
      a new key to the table. */
  lemma LeaseIdentifiersAreFresh(steps: seq<Step>, federation: Id, i: nat, j: nat, first: Lease, second: Lease)
    requires IsRun(steps, federation) && i < j < |steps|
    requires IssuesLease(steps, i, first) && IssuesLease(steps, j, second)
    ensures second.id != first.id
    ensures first.id in WorldAt(steps, j).machine.memory.leases
    ensures second.id !in WorldAt(steps, j).machine.memory.leases
  {
    hide Read, WorldAt, LogOf, MachineOk, IssueResult, AnswerAt;
    IssueAddsKey(steps, federation, i, first);
    IssueAddsKey(steps, federation, j, second);
    RunsRemember(steps, federation, i + 1, j);
  }

  // ---- what a lease grants --------------------------------------------------

  /** A lease is drawn up only for a member that holds federation authority, over grants
      it holds at that moment, within the lifetime the policy allows, and bound to its
      current identity and this incarnation. */
  lemma LeasesCoverOnlyHeldGrants(m: Machine, state: FederationState, wanted: LeaseRequest)
    requires LeaseFor(m, state, wanted).Granting?
    ensures var lease := LeaseFor(m, state, wanted).lease;
            var holder := FirstMember(state.members, wanted.holder);
            && holder.Some? && HoldsFederationAuthority(holder.value.derivation.lifecycle)
            && lease.holder == holder.value.derivation.currentIdentity
            && (forall g | g in lease.scopes :: GrantsCover(holder.value.authority, g))
            && 0 < lease.notAfter - lease.issuedAt <= LeaseLifetime(m.config.policy)
            && lease.issuedEpoch == state.epoch <= lease.notAfterEpoch
            && lease.issuerIncarnation == m.memory.incarnation
  {
    hide FirstMember, GrantsCover, LeaseLifetime;
  }

  lemma IssuedAnswer(m: Machine, wanted: LeaseRequest, written: bool)
    requires IssueResult(m, wanted, written).answer.Granting?
    ensures StateOf(InputsOf(m)).Some?
    ensures IssueResult(m, wanted, written).answer == LeaseFor(m, StateOf(InputsOf(m)).value, wanted)
  {
    hide StateOf, InputsOf, LeaseFor;
  }

  /** A lease just issued is honoured for its grants in the state it was issued over
      exactly when the federation's clock has not already passed its deadline: the
      deadline counts from the coordinator's tick, the evaluation uses the highest time
      in any accepted artefact. */
  lemma FreshLeaseIsHonouredIff(m: Machine, wanted: LeaseRequest, written: bool, g: Grant)
    requires IssueResult(m, wanted, written).answer.Granting?
    requires g in IssueResult(m, wanted, written).answer.lease.scopes
    ensures StateOf(InputsOf(m)).Some?
    ensures var lease, state := IssueResult(m, wanted, written).answer.lease, StateOf(InputsOf(m)).value;
            EvaluateLeaseFor(lease, g, state.epoch, state.incarnation, state.logicalTime) == LeaseValid <==>
            forall a | a in Accepted(InputsOf(m)) :: a.body.logicalTime <= lease.notAfter
  {
    IssuedAnswer(m, wanted, written);
    var i, state := InputsOf(m), StateOf(InputsOf(m)).value;
    LeasesCoverOnlyHeldGrants(m, state, wanted);
    LeaseForBinds(m, state, wanted);
    StateExists(i);
    StateClockIs(i);
    InputFields(m);
    var lease := IssueResult(m, wanted, written).answer.lease;
    IssuedAtTick(m, state, wanted);
    ClockIsLargestTime(Accepted(i), i.logicalTime);
    HonouredExactly(lease, g, state.epoch, state.incarnation, state.logicalTime);
    CoversItself(lease.scopes, g);
    hide LeaseFor, StateOf, InputsOf, IssueResult, Accepted, ClockOf, EpochOf, GrantsCover, EvaluateLeaseFor;
  }

  lemma IssuedAtTick(m: Machine, state: FederationState, wanted: LeaseRequest)
    requires LeaseFor(m, state, wanted).Granting?
    ensures LeaseFor(m, state, wanted).lease.issuedAt == m.memory.tick < LeaseFor(m, state, wanted).lease.notAfter
  {
    hide FirstMember, GrantsCover, LeaseLifetime;
  }

  lemma StateClockIs(i: Inputs)
    requires StateOf(i).Some?
    ensures StateOf(i).value.logicalTime == ClockOf(Accepted(i), i.logicalTime) >= i.logicalTime
    ensures StateOf(i).value.incarnation == i.incarnation
  {
    ClockIsLargestTime(Accepted(i), i.logicalTime);
    hide EpochOf, ClockOf, MembersIn, StateConflicts, PartitionOf, IsReconciling, Ledger, ViewsOf, Accepted, MemberOrder,
         EffectivePolicy, Founder;
  }

  lemma CoversItself(grants: set<Grant>, g: Grant)
    requires g in grants
    ensures GrantsCover(grants, g)
  {
    assert Names.Covers(g.scope, g.scope);
  }

  // ---- leases across a restart ----------------------------------------------

  lemma LeaseIncarnations(m: Machine, id: LeaseId)
    requires MachineOk(m) && id in m.memory.leases
    ensures id in Read(m.log).leases
    ensures m.memory.leases[id].issuerIncarnation == Read(m.log).leases[id].issuerIncarnation <= Read(m.log).incarnation
    ensures m.memory.incarnation == Read(m.log).incarnation
  {
    LogReads(m.log, m.config.federation);
    hide Read, LogOk;
    assert SameLease(m.memory, Read(m.log), id) && LeaseOk(Read(m.log), id, m.config.federation);
  }

  /** A restart is somewhere between the two points. */
  ghost predicate RestartsBetween(steps: seq<Step>, i: nat, j: nat, k: nat)
    requires j <= |steps|
  {
    i <= k < j && steps[k].Start? && WorldAt(steps, k).Down? && WorldAt(steps, k + 1).Up?
  }

  lemma StartRaises(steps: seq<Step>, federation: Id, k: nat)
    requires IsRun(steps, federation) && k < |steps| && RestartsBetween(steps, k, k + 1, k)
    ensures Read(LogOf(WorldAt(steps, k + 1))).incarnation > Read(LogOf(WorldAt(steps, k))).incarnation
  {
    RunsKeepAgreement(steps, federation, k);
    hide Read, LogOk;
    var log, config := WorldAt(steps, k).log, steps[k].config;
    StartAgrees(log, config);
    ReadAppended(log, IncarnationEvent(Recover(log, config).value.incarnation));
    hide Recover;
  }

  /** A lease known before a restart is still in the table after it and is never
      honoured again, at any epoch and any time. */
  lemma RecoveredLeasesAreStale(steps: seq<Step>, federation: Id, i: nat, j: nat, k: nat, id: LeaseId)
    requires IsRun(steps, federation) && i <= j <= |steps| && RestartsBetween(steps, i, j, k)
    requires WorldAt(steps, i).Up? && WorldAt(steps, j).Up?
    requires id in WorldAt(steps, i).machine.memory.leases
    ensures var m := WorldAt(steps, j).machine;
            && id in m.memory.leases
            && forall epoch: nat, now: nat ::
                 EvaluateLease(m.memory.leases[id], epoch, m.memory.incarnation, now) in {LeaseState.LeaseRevoked, StaleIssuer}
  {
    RunsKeepAgreement(steps, federation, i);
    RunsKeepAgreement(steps, federation, j);
    RunsRemember(steps, federation, i, k);
    RunsRemember(steps, federation, k + 1, j);
    RunsRemember(steps, federation, i, j);
    StartRaises(steps, federation, k);
    hide Read, LogOk, WorldAt, Next;
    var m, m' := WorldAt(steps, i).machine, WorldAt(steps, j).machine;
    LeaseIncarnations(m, id);
    assert id in m'.memory.leases;
    LeaseIncarnations(m', id);
    hide MachineOk;
  }

  // ---- revocations ----------------------------------------------------------

  ghost predicate RevocationRecorded(log: Log, id: LeaseId) {
    id in Read(log).revocations
  }

  /** A recorded revocation is in force in every later world of the run. */
  lemma RecordedRevocationsStay(steps: seq<Step>, federation: Id, i: nat, j: nat, id: LeaseId)
    requires IsRun(steps, federation) && i <= j <= |steps|
    requires RevocationRecorded(LogOf(WorldAt(steps, i)), id) && WorldAt(steps, j).Up?
    ensures id in WorldAt(steps, j).machine.memory.leases && WorldAt(steps, j).machine.memory.leases[id].revoked
  {
    RunsKeepAgreement(steps, federation, j);
    RunsRemember(steps, federation, i, j);
    hide Read, WorldAt;
    var m := WorldAt(steps, j).machine;
    LogReads(m.log, federation);
    hide LogOk;
    assert SameLease(m.memory, Read(m.log), id);
  }

  /** An acknowledged revocation is durable exactly when the lease was not already
      marked by an earlier call whose record never reached the journal: memory is
      changed before the record is written, and a lease marked in memory is
      acknowledged without writing anything. */
  lemma AcknowledgedRevocationIsDurableIff(m: Machine, id: LeaseId, reason: nat, encodable: bool, written: bool)
    requires MachineOk(m) && RevokeResult(m, id, reason, encodable, written).answer == Done
    ensures RevocationRecorded(RevokeResult(m, id, reason, encodable, written).machine.log, id) <==>
            (m.memory.leases[id].revoked ==> RevocationRecorded(m.log, id))
  {
    hide Read, LogOk, Agrees;
    ReadAppended(m.log, RevocationEvent(id, reason));
  }

  /** The promise fails: the first call reports the failed write, the second one
      reports success, and after a restart the lease is not revoked. */
  lemma FailedRevocationIsLaterAcknowledged(m: Machine, id: LeaseId, reason: nat, config: Config)
    requires MachineOk(m) && id in m.memory.leases && !m.memory.leases[id].revoked
    requires config.federation == m.config.federation && |m.log| <= MAX_RECORDS
    ensures var first := RevokeResult(m, id, reason, true, false);
            var second := RevokeResult(first.machine, id, reason, true, true);
            && first.answer == Failed(NotWritten) && second.answer == Done
            && !RevocationRecorded(second.machine.log, id)
            && Recover(second.machine.log, config).Some?
            && !Recover(second.machine.log, config).value.leases[id].revoked
  {
    RestartRestores(m, config);
    LeaseIncarnations(m, id);
    hide Read, LogOk, Recover;
    assert SameLease(m.memory, Read(m.log), id) by {
      hide MachineOk;
      MachineSame(m, id);
    }
  }

  lemma MachineSame(m: Machine, id: LeaseId)
    requires MachineOk(m) && id in m.memory.leases
    ensures id in Read(m.log).leases && m.memory.leases.Keys == Read(m.log).leases.Keys
    ensures SameLease(m.memory, Read(m.log), id)
  {
    hide Read, LogOk;
  }

  // ---- the clock ------------------------------------------------------------

  const SOME_OBSERVATION := MemberObservation(1, 1, 1, [])

  lemma EmptyLogRecovers(config: Config)
    requires config.initialTick == 1
    ensures Recover([], config) == Some(Memory([], map[], map[], [], 1, 1, 1))
  {
    assert Read([]) == NOTHING_READ;
    assert WithRevocations(NOTHING_READ, 1) == map[];
  }

  lemma StartOnEmpty(config: Config)
    requires config.initialTick == 1
    ensures var w := Next(Down([]), Start(config, true)).world;
            && w.Up? && w.machine.memory.tick == 1 && Read(w.machine.log).tick == 0
            && w.machine.log == Appended([], IncarnationEvent(1)) && Read(w.machine.log).revocations == map[]
  {
    assert Read([]) == NOTHING_READ;
    EmptyLogRecovers(config);
    ReadAppended([], IncarnationEvent(1));
    hide Read, Recover;
  }

  lemma ObserveAdvances(m: Machine)
    ensures var w := Next(Up(m), Call(ReportObservation(SOME_OBSERVATION), true)).world;
            && w.Up? && w.machine.memory.tick == m.memory.tick + 1
            && w.machine.log == Appended(m.log, ObservationEvent(SOME_OBSERVATION))
            && Read(w.machine.log).tick == Read(m.log).tick && Read(w.machine.log).revocations == Read(m.log).revocations
  {
    ReadAppended(m.log, ObservationEvent(SOME_OBSERVATION));
    hide Read;
  }

  /** The clock does move back: reporting an observation advances it without a record
      of the tick, and a restart right afterwards resumes one tick earlier. */
  lemma ClockMovesBack(config: Config)
    requires config.federation == 1 && config.initialTick == 1
    ensures var steps := [Start(config, true), Call(ReportObservation(SOME_OBSERVATION), true), Crash, Start(config, true)];
            && WorldAt(steps, 2).Up? && WorldAt(steps, 2).machine.memory.tick == 2
            && WorldAt(steps, 4).Up? && WorldAt(steps, 4).machine.memory.tick == 1
  {
    var steps := [Start(config, true), Call(ReportObservation(SOME_OBSERVATION), true), Crash, Start(config, true)];
    StartOnEmpty(config);
    var w0 := WorldAt(steps, 0);
    var w1 := WorldAt(steps, 1);
    ObserveAdvances(w1.machine);
    var w2 := WorldAt(steps, 2);
    var w3 := WorldAt(steps, 3);
    hide Perform, Read;
    assert w1 == Next(w0, steps[0]).world && w2 == Next(w1, steps[1]).world;
    assert w3 == Down(w2.machine.log);
    assert WorldAt(steps, 4) == Next(w3, Start(config, true)).world;
  }

  // ---- the record bound -----------------------------------------------------

  /** Nothing stops a running coordinator at the record bound: the next call is
      acknowledged, and the journal it leaves is refused at the next restart. */
  lemma BoundIsNotChecked(m: Machine, o: MemberObservation, config: Config)
    requires |m.log| >= MAX_RECORDS && o.observer != NIL && |o.peers| <= MAX_PEERS
    ensures var r := ObserveResult(m, o, true);
            r.answer == Done && Recover(r.machine.log, config).None?
  {
    hide Read;
  }

  /** A start and then nothing but observations. */
  ghost function Observing(config: Config, n: nat): seq<Step> {
    [Start(config, true)] + seq(n, _ => Call(ReportObservation(SOME_OBSERVATION), true))
  }

  lemma ObservationGrowsLog(m: Machine)
    ensures var next := Next(Up(m), Call(ReportObservation(SOME_OBSERVATION), true));
            && next.answer == Done && next.world.Up?
            && next.world.machine.config == m.config && |next.world.machine.log| == |m.log| + 1
  {
  }

  lemma FirstStart(config: Config)
    ensures var next := Next(Down([]), Start(config, true));
            && next.world.Up? && next.world.machine.config == config && |next.world.machine.log| == 1
  {
    assert Read([]) == NOTHING_READ;
  }

  lemma {:induction false} ObservationsPileUp(steps: seq<Step>, config: Config, n: nat, k: nat)
    requires Observing(config, n) <= steps && 0 < k <= n + 1
    ensures WorldAt(steps, k).Up? && WorldAt(steps, k).machine.config == config && |WorldAt(steps, k).machine.log| == k
    ensures k > 1 ==> AnswerAt(steps, k - 1) == Done
  {
    hide Next;
    assert steps[k - 1] == Observing(config, n)[k - 1];
    if k == 1 {
      FirstStart(config);
      assert WorldAt(steps, 0) == Down([]);
    } else {
      ObservationsPileUp(steps, config, n, k - 1);
      ObservationGrowsLog(WorldAt(steps, k - 1).machine);
    }
  }

  ghost function BoundSteps(config: Config): seq<Step> {
    Observing(config, MAX_RECORDS) + [Crash, Start(config, true)]
  }

  /** A run that reaches the bound: every one of as many observations as the bound allows
      records is acknowledged, and with the record of the start itself they are one too
      many, so that the next start is refused. */
  lemma LogsOutgrowTheBound(config: Config)
    ensures IsRun(BoundSteps(config), config.federation)
    ensures forall k | 0 < k <= MAX_RECORDS :: AnswerAt(BoundSteps(config), k) == Done
    ensures |BoundSteps(config)| == MAX_RECORDS + 3
    ensures AnswerAt(BoundSteps(config), MAX_RECORDS + 2) == Failed(LogRefused)
  {
    var steps, n := BoundSteps(config), MAX_RECORDS;
    assert Observing(config, n) <= steps;
    forall k | 0 < k <= n ensures AnswerAt(steps, k) == Done {
      ObservationsPileUp(steps, config, n, k + 1);
    }
    ObservationsPileUp(steps, config, n, n + 1);
    var log := WorldAt(steps, n + 1).machine.log;
    assert steps[n + 1] == Crash && steps[n + 2] == Start(config, true);
    CrashedAndRefused(WorldAt(steps, n + 1).machine, config);
    hide Next;
    assert WorldAt(steps, n + 2) == Next(WorldAt(steps, n + 1), Crash).world;
  }

  lemma CrashedAndRefused(m: Machine, config: Config)
    requires |m.log| > MAX_RECORDS
    ensures Next(Up(m), Crash).world == Down(m.log)
    ensures Next(Down(m.log), Start(config, true)).answer == Failed(LogRefused)
  {
  }

  // ---- advancing the epoch --------------------------------------------------

  lemma RecordSucceeds(m: Machine, a: Artifact, written: bool)
    requires RecordResult(m, a, true, written).answer == Done
    ensures m.config.valid(a)
    ensures RecordResult(m, a, true, written).machine.memory.artifacts ==
            if HasEvidence(m.memory.artifacts, a.evidence) then m.memory.artifacts else m.memory.artifacts + [a]
  {
  }

  /** What the derivation of standing and epoch reads of its inputs. */
  ghost predicate SameGround(i: Inputs, j: Inputs) {
    && j.artifacts == i.artifacts && j.federation == i.federation && j.valid == i.valid
    && j.policy == i.policy && Holders(j.leases) == Holders(i.leases)
  }

  lemma GroundDecides(i: Inputs, j: Inputs)
    requires SameGround(i, j)
    ensures Accepted(j) == Accepted(i) && WorldOf(j) == WorldOf(i)
  {
    hide EffectivePolicy, Founder, Holders, Subjects;
    assert forall a :: Acceptable(i, a) <==> Acceptable(j, a);
    EvidenceOrderUnique(Accepted(i), Accepted(j));
  }

  lemma StateExists(i: Inputs)
    ensures StateOf(i).Some? <==> |WorldOf(i).members| <= MAX_MEMBERS
    ensures StateOf(i).Some? ==> StateOf(i).value.epoch == EpochOf(Accepted(i))
  {
    hide EpochOf, ClockOf, MembersIn, StateConflicts, PartitionOf, IsReconciling, Ledger, ViewsOf, Accepted, MemberOrder,
         EffectivePolicy, Founder;
  }

  lemma EpochAfterRecord(i: Inputs, j: Inputs, record: Artifact)
    requires Announces(i, j, record) && record.kind == Kind.EpochAdvance && record.body.epoch > EpochOf(Accepted(i))
    ensures EpochOf(Accepted(j)) == record.body.epoch
  {
    AcceptedGrowsByRecord(i, j, record);
    EpochIsLargestAdvance(Accepted(i));
    EpochIsLargestAdvance(Accepted(j));
    hide Accepted;
    assert record in Accepted(j);
  }

  /** An acknowledged epoch advance takes effect exactly when no artefact of any kind has
      its evidence identifier, which follows from the federation, the epoch and the
      reason; with a used one the call reports success and records nothing. Either way
      standing is untouched. */
  lemma EpochAdvancesIff(m: Machine, epoch: nat, reason: AdvanceReason, evidence: Id, content: nat, written: bool)
    requires AdvanceEpochResult(m, epoch, reason, evidence, content, written).answer == Done
    ensures var m' := AdvanceEpochResult(m, epoch, reason, evidence, content, written).machine;
            && StateOf(InputsOf(m')).Some?
            && (StateOf(InputsOf(m')).value.epoch == epoch <==> !HasEvidence(m.memory.artifacts, evidence))
            && Standing.Established(WorldOf(InputsOf(m'))) == Standing.Established(WorldOf(InputsOf(m)))
  {
    var m' := AdvanceEpochResult(m, epoch, reason, evidence, content, written).machine;
    hide StateOf, HasEvidence, WorldOf, Accepted, ObservationsOf, LeasesOf;
    var record := EpochRecord(m, epoch, reason, evidence, content);
    RecordSucceeds(m, record, written);
    var i, j := InputsOf(m), InputsOf(m');
    StateExists(i);
    StateExists(j);
    if HasEvidence(m.memory.artifacts, evidence) {
      GroundDecides(i, j);
    } else {
      var grown := i.(artifacts := i.artifacts + [record]);
      GroundDecides(grown, j);
      FreshEvidence(m.memory.artifacts, evidence);
      AnnouncementsLeaveStandingAlone(i, grown, record);
      EpochAfterRecord(i, grown, record);
    }
  }

  lemma FreshEvidence(artifacts: seq<Artifact>, evidence: Id)
    requires !HasEvidence(artifacts, evidence)
    ensures forall a | a in artifacts :: a.evidence != evidence
  {
  }
}
