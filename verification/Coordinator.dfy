// The coordinator of src/coordinator.cpp as an object: its fields, its public
// operations as methods, each proved to be the corresponding step of the machine in
// Coordination.dfy. `written` stands for the journal accepting the record.
module Coordinator {
  import opened Sequences
  import opened Scopes
  import opened Policies
  import opened Identities
  import opened Evidence
  import opened Membership
  import opened Partition
  import opened Leases
  import opened State
  import opened StateDerivation
  import opened Authority
  import opened Coordination
  import opened Runs

  class Coordinator {
    const config: Config
    var artifacts: seq<Artifact>
    var leases: map<LeaseId, Lease>
    var observations: map<Id, MemberObservation>
    var replay: seq<ReplayEntry>
    var tick: nat
    var incarnation: nat
    var leaseSequence: nat
    var log: Log

    function Machine(): Machine
      reads this
    {
      Coordination.Machine(config, Memory(artifacts, leases, observations, replay, tick, incarnation, leaseSequence), log)
    }

    ghost predicate Valid()
      reads this
    {
      MachineOk(Machine())
    }

    /** A coordinator on an existing log; `accepted` tells whether it could be used. */
    constructor (config: Config, log: Log, recovered: Memory)
      requires LogOk(log, config.federation) && Recover(log, config) == Some(recovered)
      ensures Valid() && Machine() ==
        Coordination.Machine(config, recovered, Appended(log, IncarnationEvent(recovered.incarnation)))
    {
      hide MachineOk, Read, LogOk, Recover;
      this.config := config;
      artifacts, leases, observations := recovered.artifacts, recovered.leases, recovered.observations;
      replay, tick, incarnation := recovered.replay, recovered.tick, recovered.incarnation;
      leaseSequence := recovered.leaseSequence;
      this.log := Appended(log, IncarnationEvent(recovered.incarnation));
      StartAgrees(log, config);
    }

    /** journal_append. */
    method Append(event: Event, written: bool) returns (ok: bool)
      modifies this`log
      ensures ok == written
      ensures log == if written then Appended(old(log), event) else old(log)
    {
      if written {
        log := Appended(log, event);
      }
      return written;
    }

    method NextTick()
      modifies this`tick
      ensures tick == old(tick) + 1
    {
      tick := tick + 1;
    }

    /** derive_locked. */
    method Derived() returns (state: Option<FederationState>)
      ensures state == StateOf(InputsOf(Machine()))
    {
      hide StateOf;
      var inputs := InputsOf(Machine());
      state := DeriveState(inputs);
    }

    /** has_evidence_locked. */
    method KnowsEvidence(evidence: Id) returns (known: bool)
      ensures known == HasEvidence(artifacts, evidence)
    {
      for i := 0 to |artifacts|
        invariant forall k | 0 <= k < i :: artifacts[k].evidence != evidence
      {
        if artifacts[i].evidence == evidence {
          return true;
        }
      }
      return false;
    }

    /** admit_locked: both copies of conflicting evidence are recorded. */
    method SubmitArtifact(artifact: Artifact, written: bool) returns (submission: Submission)
      requires Valid()
      modifies this
      ensures Valid()
      ensures Result(Machine(), Submitted(submission)) == SubmitResult(old(Machine()), artifact, written)
    {
      hide MachineOk;
      CallKeeps(Machine(), Submit(artifact), written);
      KeptMachine(Machine(), SubmitResult(Machine(), artifact, written).machine);
      if !config.valid(artifact) {
        return Malformed;
      }
      if artifact.federation != config.federation {
        return RejectedForeign;
      }
      if |artifacts| >= MAX_ARTIFACTS {
        return RejectedFull;
      }
      var same, conflicting := false, false;
      for i := 0 to |artifacts|
        invariant same <==> exists k | 0 <= k < i :: artifacts[k] == artifact
        invariant conflicting <==> exists k | 0 <= k < i :: artifacts[k].evidence == artifact.evidence && artifacts[k] != artifact
      {
        if artifacts[i].evidence == artifact.evidence {
          if artifacts[i] == artifact {
            same := true;
          } else {
            conflicting := true;
          }
        }
      }
      if same {
        return Duplicate;
      }
      var appended := Append(ArtifactEvent(artifact), written);
      if !appended {
        return RejectedUnwritten;
      }
      artifacts := artifacts + [artifact];
      assert conflicting <==> HasEvidence(old(artifacts), artifact.evidence);
      return if conflicting then RejectedConflicting else Applied;
    }

    /** record_decision_locked, and the tick of the operations that use it. */
    method RecordDecision(decision: Artifact, ticks: bool, written: bool) returns (answer: Answer)
      requires Valid()
      modifies this
      ensures Valid()
      ensures Result(Machine(), answer) == RecordResult(old(Machine()), decision, ticks, written)
    {
      hide MachineOk, HasEvidence;
      RecordKept(Machine(), decision, ticks, written);
      KeptMachine(Machine(), RecordResult(Machine(), decision, ticks, written).machine);
      if !config.valid(decision) {
        return Failed(InvalidArgument);
      }
      var known := KnowsEvidence(decision.evidence);
      if !known {
        var appended := Append(ArtifactEvent(decision), written);
        if !appended {
          return Failed(NotWritten);
        }
        artifacts := artifacts + [decision];
      }
      if ticks {
        NextTick();
      }
      return Done;
    }

    /** evaluate: the decision is on record before it is answered. */
    method Evaluate(request: Request, digest: nat, written: bool) returns (answer: Answer)
      requires Valid()
      modifies this
      ensures Valid()
      ensures Result(Machine(), answer) == EvaluateResult(old(Machine()), request, digest, written)
    {
      hide MachineOk, StateOf, InputsOf, Decide;
      EvaluateKept(Machine(), request, digest, written);
      KeptMachine(Machine(), EvaluateResult(Machine(), request, digest, written).machine);
      if request.federation == NIL {
        return Failed(InvalidArgument);
      }
      var derived := Derived();
      if derived.None? {
        return Failed(NotDerivable);
      }
      var decision := EvaluateAuthority(Question(request, derived.value, config.policy, config.catalog));
      answer := Commit(decision.outcome, ReplayEntry(request.id, digest, derived.value.logicalTime), written);
    }

    method Commit(outcome: Outcome, entry: ReplayEntry, written: bool) returns (answer: Answer)
      modifies this
      ensures Result(Machine(), answer) == Committed(old(Machine()), outcome, entry, written)
    {
      if outcome != Invalid {
        var present := IsReplayed(replay, entry.request);
        if !present {
          if |replay| >= MAX_REPLAY_ENTRIES {
            return Failed(AtCapacity);
          }
          var appended := Append(DecisionEvent(entry), written);
          if !appended {
            return Failed(NotWritten);
          }
          replay := replay + [entry];
        }
        NextTick();
      }
      return Answered(outcome);
    }

    /** issue_lease. */
    method IssueLease(wanted: LeaseRequest, written: bool) returns (answer: Answer)
      requires Valid()
      modifies this
      ensures Valid()
      ensures Result(Machine(), answer) == IssueResult(old(Machine()), wanted, written)
    {
      hide MachineOk, StateOf, InputsOf, LeaseFor;
      IssueKept(Machine(), wanted, written);
      KeptMachine(Machine(), IssueResult(Machine(), wanted, written).machine);
      var derived := Derived();
      if derived.None? {
        return Failed(NotDerivable);
      }
      answer := DrawUp(derived.value, wanted);
      if !answer.Granting? {
        return;
      }
      var lease := answer.lease;
      var appended := Append(LeaseEvent(lease), written);
      if !appended {
        return Failed(NotWritten);
      }
      leases := leases[lease.id := lease];
      leaseSequence := leaseSequence + 1;
      NextTick();
    }

    /** The checks of issue_lease, in order, and the lease itself. */
    method DrawUp(state: FederationState, wanted: LeaseRequest) returns (answer: Answer)
      ensures answer == LeaseFor(Machine(), state, wanted)
    {
      hide FirstMember, GrantsCover, LeaseLifetime;
      var member := FindMember(state.members, wanted.holder);
      if member.None? {
        return Failed(NotFound);
      }
      var holder := member.value;
      if !HoldsFederationAuthority(holder.derivation.lifecycle) {
        return Failed(NotHeld);
      }
      if |wanted.scopes| == 0 {
        return Failed(InvalidArgument);
      }
      if |wanted.scopes| > MAX_SCOPES_PER_LEASE {
        return Failed(TooLarge);
      }
      for i := 0 to |wanted.scopes|
        invariant forall k | 0 <= k < i :: GrantsCover(holder.authority, wanted.scopes[k])
      {
        var covered := AnyCovers(holder.authority, wanted.scopes[i]);
        if !covered {
          return Failed(NotHeld);
        }
      }
      var maximum := MaxLeaseLifetime(config.policy);
      var lifetime := if wanted.lifetime == 0 then maximum else wanted.lifetime;
      if lifetime == 0 || lifetime > maximum {
        return Failed(OutOfRange);
      }
      if tick + lifetime >= U64_END {
        return Failed(Overflow);
      }
      if |state.leases| >= MAX_LEASES {
        return Failed(AtCapacity);
      }
      var lastEpoch := if wanted.notAfterEpoch == 0 then state.epoch else wanted.notAfterEpoch;
      if lastEpoch < state.epoch {
        return Failed(InvalidArgument);
      }
      return Granting(Lease(LeaseId(config.federation, leaseSequence), config.federation,
                            holder.derivation.currentIdentity, Elements(wanted.scopes), state.epoch, lastEpoch,
                            tick, tick + lifetime, incarnation, false, 0, 0));
    }

    /** revoke_lease: the table is changed before the record is written. */
    method RevokeLease(id: LeaseId, reason: nat, encodable: bool, written: bool) returns (answer: Answer)
      requires Valid()
      modifies this
      ensures Valid()
      ensures Result(Machine(), answer) == RevokeResult(old(Machine()), id, reason, encodable, written)
    {
      hide MachineOk;
      RevokeKept(Machine(), id, reason, encodable, written);
      KeptMachine(Machine(), RevokeResult(Machine(), id, reason, encodable, written).machine);
      if id !in leases {
        return Failed(NotFound);
      }
      if leases[id].revoked {
        return Done;
      }
      leases := leases[id := Revoked(leases[id], tick, reason)];
      if !encodable {
        return Failed(InvalidArgument);
      }
      var appended := Append(RevocationEvent(id, reason), written);
      if !appended {
        return Failed(NotWritten);
      }
      NextTick();
      return Done;
    }

    /** report_observation. */
    method ReportObservation(observation: MemberObservation, written: bool) returns (answer: Answer)
      requires Valid()
      modifies this
      ensures Valid()
      ensures Result(Machine(), answer) == ObserveResult(old(Machine()), observation, written)
    {
      hide MachineOk;
      CallKeeps(Machine(), Operation.ReportObservation(observation), written);
      KeptMachine(Machine(), ObserveResult(Machine(), observation, written).machine);
      if observation.observer == NIL {
        return Failed(InvalidArgument);
      }
      if |observation.peers| > MAX_PEERS {
        return Failed(TooLarge);
      }
      var appended := Append(ObservationEvent(observation), written);
      if !appended {
        return Failed(NotWritten);
      }
      observations := observations[observation.observer := observation];
      NextTick();
      return Done;
    }

    /** advance_time. */
    method AdvanceTime(to: nat, written: bool) returns (answer: Answer)
      requires Valid()
      modifies this
      ensures Valid()
      ensures Result(Machine(), answer) == AdvanceTimeResult(old(Machine()), to, written)
    {
      hide MachineOk;
      CallKeeps(Machine(), Operation.AdvanceTime(to), written);
      KeptMachine(Machine(), AdvanceTimeResult(Machine(), to, written).machine);
      if to <= tick {
        return Failed(OutOfRange);
      }
      tick := to;
      var appended := Append(TickEvent(to), written);
      return if appended then Done else Failed(NotWritten);
    }

    /** advance_epoch. */
    method AdvanceEpoch(epoch: nat, reason: AdvanceReason, evidence: Id, content: nat, written: bool)
      returns (answer: Answer)
      requires Valid()
      modifies this
      ensures Valid()
      ensures Result(Machine(), answer) == AdvanceEpochResult(old(Machine()), epoch, reason, evidence, content, written)
    {
      hide MachineOk, StateOf, InputsOf, RecordResult;
      var derived := Derived();
      if derived.None? {
        return Failed(NotDerivable);
      }
      if epoch <= derived.value.epoch {
        return Failed(OutOfRange);
      }
      answer := RecordDecision(EpochRecord(Machine(), epoch, reason, evidence, content), true, written);
    }
  }

  lemma KeptMachine(m: Machine, m': Machine)
    requires Kept(m, m')
    ensures MachineOk(m')
  {
    hide MachineOk;
  }

  /** load_journal as the loop of the program: the records are read one by one and the
      revocations are applied after the whole scan. */
  method LoadJournal(log: Log, config: Config) returns (recovered: Option<Memory>)
    ensures recovered == Recover(log, config)
  {
    if |log| > MAX_RECORDS {
      return None;
    }
    var r := NOTHING_READ;
    var highestTick := config.initialTick;
    for i := 0 to |log|
      invariant r == Read(log[..i]) && highestTick == Max(config.initialTick, r.tick)
    {
      assert log[..i + 1][..i] == log[..i];
      r := ReadOne(r, log[i]);
      highestTick := if r.tick > highestTick then r.tick else highestTick;
    }
    assert log[..|log|] == log;
    var table := r.leases;
    var left := r.revocations.Keys;
    while left != {}
      invariant left <= r.revocations.Keys && table.Keys == r.leases.Keys
      invariant forall id | id in r.revocations.Keys - left :: id in r.leases
      invariant forall id | id in table :: table[id] ==
                  if id in r.revocations && id !in left then Revoked(r.leases[id], highestTick, r.revocations[id])
                  else r.leases[id]
      decreases |left|
    {
      var id :| id in left;
      if id !in table {
        return None;
      }
      table := table[id := Revoked(table[id], highestTick, r.revocations[id])];
      left := left - {id};
    }
    assert table == WithRevocations(r, highestTick);
    return Some(Memory(r.artifacts, table, r.observations, r.replay, highestTick, r.incarnation + 1, r.leaseSequence + 1));
  }
}
