// The artefact model: an envelope (who issued what about whom) and the body
// fields the derivation reads. `content` stands for every other encoded field,
// so that two artefacts have the same digest exactly when they are equal.
module Evidence {
  import opened Scopes
  import opened Policies
  import opened Identities

  datatype Kind =
    | FederationGenesis
    | PolicyUpdate
    | MembershipProposal
    | MembershipAcceptance
    | MembershipEndorsement
    | MembershipAdmission
    | MembershipActivation
    | DelegationDeclaration
    | DelegationWithdrawal
    | MembershipLeave
    | MembershipFence
    | MembershipRetirement
    | MemberReattestation
    | LeaseIssued
    | LeaseRevoked
    | EpochAdvance
    | ReconciliationComplete
    | PartitionReport
    | TimeAdvance

  datatype AdvanceReason = AfterSplit | AfterIndeterminate | OtherReason

  datatype Body = Body(
    declaration: Declaration,
    declaredIdentity: Identity,
    founder: Declaration,
    policy: Policy,
    policyGeneration: nat,
    epoch: nat,
    lineage: nat,
    delegatedTerms: seq<Terms>,
    withdrawnGrants: seq<Grant>,
    reason: AdvanceReason,
    logicalTime: nat,
    content: nat)

  /** `issuer` is nil for artefacts the coordinator issues itself. */
  datatype Artifact = Artifact(
    evidence: Id, kind: Kind, federation: Id, subject: Id,
    issuer: Id, issuerEpoch: nat, body: Body)
}
