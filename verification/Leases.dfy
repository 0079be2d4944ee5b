// Authority leases: what a lease binds, and when it is honoured.
module Leases {
  import opened Scopes
  import opened Identities
  import Names

  /** A lease identifier is derived injectively from the federation and a counter. */
  datatype LeaseId = NoLease | LeaseId(federation: Id, sequence: nat)

  datatype Lease = Lease(
    id: LeaseId, federation: Id, holder: Identity, scopes: set<Grant>,
    issuedEpoch: nat, notAfterEpoch: nat, issuedAt: nat, notAfter: nat,
    issuerIncarnation: nat, revoked: bool, revokedAt: nat, revokeReason: nat)

  datatype LeaseState = LeaseValid | LeaseUnknown | LeaseExpired | LeaseRevoked
                      | StaleIssuer | EpochMismatch | HolderMismatch | ScopeNotCovered

  /** src/lease.cpp, evaluate_common. */
  function EvaluateLease(lease: Lease, epoch: nat, incarnation: nat, now: nat): LeaseState {
    if lease.revoked then LeaseRevoked
    else if lease.issuerIncarnation != incarnation then StaleIssuer
    else
      var highest := if lease.notAfterEpoch > lease.issuedEpoch then lease.notAfterEpoch else lease.issuedEpoch;
      if epoch > highest then EpochMismatch
      else if epoch < lease.issuedEpoch then EpochMismatch
      else if now > lease.notAfter then LeaseExpired
      else LeaseValid
  }

  /** src/lease.cpp, evaluate_lease against a requested grant. */
  function EvaluateLeaseFor(lease: Lease, requested: Grant, epoch: nat, incarnation: nat, now: nat): LeaseState {
    var state := EvaluateLease(lease, epoch, incarnation, now);
    if state != LeaseValid then state
    else if !GrantsCover(lease.scopes, requested) then ScopeNotCovered
    else LeaseValid
  }

  /** A lease is honoured exactly while every binding holds. */
  lemma HonouredExactly(lease: Lease, requested: Grant, epoch: nat, incarnation: nat, now: nat)
    ensures EvaluateLeaseFor(lease, requested, epoch, incarnation, now) == LeaseValid <==>
            && !lease.revoked && lease.issuerIncarnation == incarnation
            && lease.issuedEpoch <= epoch && (epoch <= lease.notAfterEpoch || epoch == lease.issuedEpoch)
            && now <= lease.notAfter
            && GrantsCover(lease.scopes, requested)
  {
  }

  /** Why a lease is not honoured: revocation hides everything else, then a foreign issuer,
      then an epoch outside the ones it was issued for, then its deadline; that it does not
      cover the grant shows only on a lease that is otherwise good. */
  lemma LapsesExactly(lease: Lease, requested: Grant, epoch: nat, incarnation: nat, now: nat)
    ensures var state := EvaluateLeaseFor(lease, requested, epoch, incarnation, now);
            var inEpoch := lease.issuedEpoch <= epoch && (epoch <= lease.notAfterEpoch || epoch == lease.issuedEpoch);
            && (state == LeaseRevoked <==> lease.revoked)
            && (state == StaleIssuer <==> !lease.revoked && incarnation != lease.issuerIncarnation)
            && (state == EpochMismatch <==> !lease.revoked && incarnation == lease.issuerIncarnation && !inEpoch)
            && (state == LeaseExpired <==>
                !lease.revoked && incarnation == lease.issuerIncarnation && inEpoch && lease.notAfter < now)
            && (state == ScopeNotCovered <==>
                !lease.revoked && incarnation == lease.issuerIncarnation && inEpoch && now <= lease.notAfter &&
                forall g | g in lease.scopes :: g.verb != requested.verb || !Names.Covers(g.scope, requested.scope))
            && state !in {LeaseUnknown, HolderMismatch}
  {
  }

  /** The same lease, possibly revoked in the meantime. */
  predicate Succeeds(later: Lease, earlier: Lease) {
    later.(revoked := earlier.revoked, revokedAt := earlier.revokedAt, revokeReason := earlier.revokeReason) == earlier
    && (earlier.revoked ==> later.revoked)
  }

  /** Once a started lease is no longer honoured it never is again: epochs, clocks
      and incarnations only advance and revocations are not undone. */
  lemma LapsedStaysLapsed(earlier: Lease, later: Lease, epoch: nat, incarnation: nat, now: nat,
                          epoch': nat, incarnation': nat, now': nat)
    requires Succeeds(later, earlier) && epoch <= epoch' && incarnation <= incarnation' && now <= now'
    requires earlier.issuedEpoch <= epoch && earlier.issuerIncarnation <= incarnation
    requires EvaluateLease(earlier, epoch, incarnation, now) != LeaseValid
    ensures EvaluateLease(later, epoch', incarnation', now') != LeaseValid
  {
  }

  /** Advancing the epoch fences a lease in force exactly when the new epoch is past the
      last one its holder asked for; a lease asked to outlive its epoch does. */
  lemma SurvivesEpochIff(lease: Lease, requested: Grant, epoch: nat, later: nat, incarnation: nat, now: nat)
    requires EvaluateLeaseFor(lease, requested, epoch, incarnation, now) == LeaseValid && epoch < later
    ensures EvaluateLeaseFor(lease, requested, later, incarnation, now) == LeaseValid <==> later <= lease.notAfterEpoch
  {
    HonouredExactly(lease, requested, epoch, incarnation, now);
    HonouredExactly(lease, requested, later, incarnation, now);
    hide EvaluateLeaseFor, GrantsCover;
  }
}
