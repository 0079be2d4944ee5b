// What every call of the coordinator does, exactly: when it succeeds, what it changes, and
// what a submission does to the evidence the state is derived from.
module Calls {
  import opened Sequences
  import opened Scopes
  import opened Policies
  import opened Identities
  import opened Evidence
  import opened Membership
  import opened Partition
  import opened Leases
  import opened State
  import opened Authority
  import opened Coordination

  // ---- submissions ----------------------------------------------------------

  ghost predicate Recordable(m: Machine, a: Artifact) {
    && m.config.valid(a) && a.federation == m.config.federation
    && |m.memory.artifacts| < MAX_ARTIFACTS && a !in m.memory.artifacts
  }

  ghost predicate Clashes(m: Machine, a: Artifact) {
    exists b | b in m.memory.artifacts :: b.evidence == a.evidence && b != a
  }

  /** A valid new artefact of this federation is recorded as long as there is room, and
      nothing else is; it is reported as conflicting exactly if another artefact has its
      identifier. */
  lemma SubmissionExactly(m: Machine, a: Artifact, written: bool)
    ensures var r := SubmitResult(m, a, written);
            && r.machine == (if Recordable(m, a) && written then WithArtifact(m, a) else m)
            && (r.answer == Submitted(Applied) <==> Recordable(m, a) && written && !Clashes(m, a))
            && (r.answer == Submitted(RejectedConflicting) <==> Recordable(m, a) && written && Clashes(m, a))
            && (r.answer == Submitted(RejectedUnwritten) <==> Recordable(m, a) && !written)
            && (r.answer == Submitted(Malformed) <==> !m.config.valid(a))
            && (r.answer == Submitted(RejectedForeign) <==> m.config.valid(a) && a.federation != m.config.federation)
            && (r.answer == Submitted(RejectedFull) <==>
                m.config.valid(a) && a.federation == m.config.federation && |m.memory.artifacts| >= MAX_ARTIFACTS)
            && (r.answer == Submitted(Duplicate) <==>
                m.config.valid(a) && a.federation == m.config.federation && |m.memory.artifacts| < MAX_ARTIFACTS &&
                a in m.memory.artifacts)
  {
  }

  lemma InputsWith(m: Machine, a: Artifact)
    ensures InputsOf(WithArtifact(m, a)) == InputsOf(m).(artifacts := m.memory.artifacts + [a])
    ensures InputsOf(m).artifacts == m.memory.artifacts && InputsOf(m).federation == m.config.federation
    ensures InputsOf(m).valid == m.config.valid
  {
  }

  lemma AcceptedWith(i: Inputs, a: Artifact, x: Artifact)
    requires i.valid(a) && a.federation == i.federation && a !in i.artifacts
    ensures var clashes := exists b | b in i.artifacts :: b.evidence == a.evidence && b != a;
            Acceptable(i.(artifacts := i.artifacts + [a]), x) <==>
            if clashes then Acceptable(i, x) && x.evidence != a.evidence else Acceptable(i, x) || x == a
  {
    var j := i.(artifacts := i.artifacts + [a]);
    assert forall y :: y in j.artifacts <==> y in i.artifacts || y == a;
  }

  /** What a submission does to the evidence in force: applied, the artefact is accepted and
      nothing else changes; conflicting, everything under its identifier is set aside, the
      copy accepted before included; any other answer changes nothing. */
  lemma SubmissionTakesEffect(m: Machine, a: Artifact, written: bool, x: Artifact)
    ensures var r := SubmitResult(m, a, written);
            x in Accepted(InputsOf(r.machine)) <==>
            if r.answer == Submitted(Applied) then x in Accepted(InputsOf(m)) || x == a
            else if r.answer == Submitted(RejectedConflicting) then x in Accepted(InputsOf(m)) && x.evidence != a.evidence
            else x in Accepted(InputsOf(m))
  {
    SubmissionExactly(m, a, written);
    InputsWith(m, a);
    if Recordable(m, a) {
      AcceptedWith(InputsOf(m), a, x);
    }
    hide InputsOf, Acceptable, SubmitResult, WithArtifact;
  }

  /** A decision of the coordinator is recorded once: acknowledged if it is valid and is
      recorded already or now, and only then does time move on. */
  lemma RecordExactly(m: Machine, a: Artifact, ticks: bool, written: bool)
    ensures var r, known := RecordResult(m, a, ticks, written), exists b | b in m.memory.artifacts :: b.evidence == a.evidence;
            && (r.answer == Done <==> m.config.valid(a) && (known || written))
            && (r.answer == Failed(InvalidArgument) <==> !m.config.valid(a))
            && r.machine.memory.artifacts == m.memory.artifacts + (if r.answer == Done && !known then [a] else [])
            && r.machine.memory.tick == m.memory.tick + (if r.answer == Done && ticks then 1 else 0)
            && (r.machine.log == m.log <==> r.answer != Done || known)
  {
  }

  /** An epoch advance is acknowledged exactly if the state can be derived, the epoch is
      beyond the state's, and the record is valid and is there already or written now. */
  lemma AdvanceExactly(m: Machine, epoch: nat, reason: AdvanceReason, evidence: Id, content: nat, written: bool)
    ensures var r, state := AdvanceEpochResult(m, epoch, reason, evidence, content, written), StateOf(InputsOf(m));
            && (r.answer == Done <==>
                state.Some? && epoch > state.value.epoch &&
                m.config.valid(EpochRecord(m, epoch, reason, evidence, content)) &&
                (written || exists b | b in m.memory.artifacts :: b.evidence == evidence))
            && (r.answer == Failed(OutOfRange) <==> state.Some? && epoch <= state.value.epoch)
            && (r.answer == Failed(NotDerivable) <==> state.None?)
  {
    hide StateOf, InputsOf;
    RecordExactly(m, EpochRecord(m, epoch, reason, evidence, content), true, written);
  }

  /** What a state is derived from is all of memory: every artefact, every observation, every
      lease of the table under its own identifier, the whole ledger, and the tick. */
  lemma InputsExactly(m: Machine)
    requires forall id | id in m.memory.leases :: id.LeaseId? && id.federation == m.config.federation
    ensures var i := InputsOf(m);
            && i.artifacts == m.memory.artifacts && i.replay == m.memory.replay
            && i.logicalTime == m.memory.tick && i.incarnation == m.memory.incarnation
            && i.federation == m.config.federation && i.policy == m.config.policy && i.catalog == m.config.catalog
            && (forall l :: l in i.leases <==> l in m.memory.leases.Values)
            && (forall o :: o in i.observations <==> o in m.memory.observations.Values)
  {
    LeasesListed(m.memory.leases, m.config.federation);
    ObservationsListed(m.memory.observations);
    hide LeasesOf, ObservationsOf;
  }

  lemma LeasesListed(leases: map<LeaseId, Lease>, federation: Id)
    requires forall id | id in leases :: id.LeaseId? && id.federation == federation
    ensures forall l :: l in LeasesOf(leases, federation) <==> l in leases.Values
  {
    var counters := Ascending(Counters(leases, federation));
    forall id | id in leases ensures leases[id] in LeasesOf(leases, federation) {
      assert id.sequence in Counters(leases, federation);
      var k :| 0 <= k < |counters| && counters[k] == id.sequence;
      assert LeasesOf(leases, federation)[k] == leases[id];
    }
    forall k | 0 <= k < |counters| ensures LeasesOf(leases, federation)[k] in leases.Values {
      assert counters[k] in Counters(leases, federation);
      CounterIsKey(leases, federation, counters[k]);
    }
  }

  lemma ObservationsListed(observations: map<Id, MemberObservation>)
    ensures forall o :: o in ObservationsOf(observations) <==> o in observations.Values
  {
    var observers := Ascending(observations.Keys);
    forall id | id in observations ensures observations[id] in ObservationsOf(observations) {
      var k :| 0 <= k < |observers| && observers[k] == id;
      assert ObservationsOf(observations)[k] == observations[id];
    }
  }

  // ---- decisions ------------------------------------------------------------

  /** An evaluation is answered, with the decision, exactly if the request names a federation,
      the state can be derived, and the identifier is on record already or is recorded now:
      then the ledger has room and the record is written. */
  lemma EvaluationExactly(m: Machine, request: Request, digest: nat, written: bool)
    ensures var r, state := EvaluateResult(m, request, digest, written), StateOf(InputsOf(m));
            var known := exists e | e in m.memory.replay :: e.request == request.id;
            var answered := request.federation != NIL && state.Some? &&
                            (known || (|m.memory.replay| < MAX_REPLAY_ENTRIES && written));
            && (r.answer.Answered? <==> answered)
            && (answered ==>
                  && r.answer == Answered(Decide(Question(request, state.value, m.config.policy, m.config.catalog)))
                  && r.machine.memory.tick == m.memory.tick + 1
                  && r.machine.memory.replay == m.memory.replay +
                       if known then [] else [ReplayEntry(request.id, digest, state.value.logicalTime)])
            && (!answered ==> r.machine == m)
  {
    hide StateOf, InputsOf, Decide;
    if StateOf(InputsOf(m)).Some? {
      OutcomesThatOccur(Question(request, StateOf(InputsOf(m)).value, m.config.policy, m.config.catalog));
    }
  }

  // ---- leases ---------------------------------------------------------------

  /** The lifetime asked for, the longest one if none is. */
  function Lifetime(m: Machine, wanted: LeaseRequest): nat {
    if wanted.lifetime == 0 then LeaseLifetime(m.config.policy) else wanted.lifetime
  }

  ghost predicate MayLease(m: Machine, state: FederationState, wanted: LeaseRequest) {
    var holder := FirstMember(state.members, wanted.holder);
    && holder.Some? && holder.value.derivation.lifecycle in {Active, Degraded}
    && 0 < |wanted.scopes| <= MAX_SCOPES_PER_LEASE
    && (forall g | g in wanted.scopes :: GrantsCover(holder.value.authority, g))
    && 0 < Lifetime(m, wanted) <= LeaseLifetime(m.config.policy)
    && m.memory.tick + Lifetime(m, wanted) < U64_END
    && |state.leases| < MAX_LEASES
    && (wanted.notAfterEpoch == 0 || wanted.notAfterEpoch >= state.epoch)
  }

  /** A lease is drawn up exactly under these conditions, and says what was asked for: it is
      good from this tick for the lifetime, from this epoch to the last one asked for. */
  lemma LeaseExactly(m: Machine, state: FederationState, wanted: LeaseRequest)
    ensures LeaseFor(m, state, wanted).Granting? <==> MayLease(m, state, wanted)
    ensures LeaseFor(m, state, wanted).Granting? ==>
              var lease := LeaseFor(m, state, wanted).lease;
              && lease.id == LeaseId(m.config.federation, m.memory.leaseSequence)
              && lease.federation == m.config.federation
              && (forall g :: g in lease.scopes <==> g in wanted.scopes)
              && lease.issuedAt == m.memory.tick && lease.notAfter == m.memory.tick + Lifetime(m, wanted)
              && lease.issuedEpoch == state.epoch
              && lease.notAfterEpoch == (if wanted.notAfterEpoch == 0 then state.epoch else wanted.notAfterEpoch)
              && !lease.revoked && lease.issuerIncarnation == m.memory.incarnation
              && lease.holder == FirstMember(state.members, wanted.holder).value.derivation.currentIdentity
  {
    hide FirstMember, GrantsCover, LeaseLifetime;
  }

  /** Revoking a known lease always marks it in memory, at this tick and with this reason if
      it was not marked before; no other lease is touched. It is acknowledged exactly if it
      was marked before or the record could be encoded and written. */
  lemma RevocationExactly(m: Machine, id: LeaseId, reason: nat, encodable: bool, written: bool)
    ensures var r, table := RevokeResult(m, id, reason, encodable, written), m.memory.leases;
            && (r.answer == Done <==> id in table && (table[id].revoked || (encodable && written)))
            && r.machine.memory.leases.Keys == table.Keys
            && (forall other | other in table && other != id :: r.machine.memory.leases[other] == table[other])
            && (id in table ==>
                  && r.machine.memory.leases[id].revoked
                  && r.machine.memory.leases[id] ==
                     if table[id].revoked then table[id]
                     else table[id].(revoked := true, revokedAt := m.memory.tick, revokeReason := reason))
            && (r.machine.log != m.log <==> id in table && !table[id].revoked && encodable && written)
  {
  }

  // ---- observations and the clock -------------------------------------------

  /** An observation is taken in exactly if it names its observer, is not too long and is
      written; it replaces that observer's previous one and leaves the others. */
  lemma ObservationExactly(m: Machine, o: MemberObservation, written: bool)
    ensures var r, table := ObserveResult(m, o, written), m.memory.observations;
            && (r.answer == Done <==> o.observer != NIL && |o.peers| <= MAX_PEERS && written)
            && (r.answer == Done ==>
                  && r.machine.memory.observations.Keys == table.Keys + {o.observer}
                  && r.machine.memory.observations[o.observer] == o
                  && (forall other | other in table && other != o.observer ::
                        r.machine.memory.observations[other] == table[other])
                  && r.machine.memory.tick == m.memory.tick + 1)
            && (r.answer != Done ==> r.machine == m)
  {
  }

  /** Time only moves forward, and moves even if that cannot be recorded. */
  lemma TimeExactly(m: Machine, to: nat, written: bool)
    ensures var r := AdvanceTimeResult(m, to, written);
            && r.machine.memory == m.memory.(tick := if to > m.memory.tick then to else m.memory.tick)
            && (r.answer == Done <==> to > m.memory.tick && written)
            && (r.answer == Done <==> r.machine.log != m.log)
  {
  }

  // ---- every call -----------------------------------------------------------

  /** Each part of memory is changed by its own operations only, and the configuration and
      the incarnation by none. */
  lemma EveryCallMindsItsPart(m: Machine, op: Operation, written: bool)
    ensures var m' := Perform(m, op, written).machine;
            && m'.config == m.config && m'.memory.incarnation == m.memory.incarnation
            && (m'.memory.artifacts != m.memory.artifacts ==> op.Submit? || op.Record? || op.AdvanceEpoch?)
            && (m'.memory.leases != m.memory.leases ==> op.Issue? || op.Revoke?)
            && (m'.memory.leaseSequence != m.memory.leaseSequence ==> op.Issue?)
            && (m'.memory.observations != m.memory.observations ==> op.ReportObservation?)
            && (m'.memory.replay != m.memory.replay ==> op.Evaluate?)
            && m'.memory.tick >= m.memory.tick && (!op.AdvanceTime? ==> m'.memory.tick <= m.memory.tick + 1)
            && m.log <= m'.log && |m'.log| <= |m.log| + 1
  {
    hide StateOf, InputsOf, Decide, LeaseFor, HasEvidence, HasReplay;
  }
}
