# Fabric Federation model

Fabric Federation composes independently governed domains into a larger authority domain.
A coordinator collects evidence artefacts about members, derives federation state from the
set of them, answers authority questions over that state, issues and revokes leases, and
keeps everything in a crash-recoverable journal. This project is a model of that core in
Dafny, together with proofs of what it guarantees over all evidence, all policies, all files
and all runs. `dafny verify dfyconfig.toml` checks it.

## Layers

| files | models |
|---|---|
| `Sequences`, `Bytes` | shared idioms: ordered selection, canonical order, fixed-width integers |
| `Names`, `Scopes`, `Intersections`, `Policies`, `Identities`, `Leases`, `Evidence` | values: names and patterns, grants, policy rules, identities, leases, artefacts |
| `Membership`, `Proposals`, `MembershipDerivation`, `Lifecycles` | what one member's evidence means, the scans that compute it, and the exact condition of every lifecycle, identity and term by the fields of the artefacts |
| `Standing` | the established-member fixpoint and sponsor chains |
| `Graphs`, `DisjointSets`, `Partition`, `PartitionAssessment`, `Reachability` | reachability reports, union-find, connectivity, and the verdict by the fields of the reports |
| `State`, `StateDerivation`, `StateProperties`, `Provenance` | the derived federation state, the derivation, its theorems, and where each of its facts comes from |
| `Authority`, `EndToEnd`, `Outcomes`, `Bindings` | the decision ladder, what stands behind GRANTED, the exact condition of every other answer, and what of a lease the decision looks at |
| `Sha256`, `Sha256Example`, `JournalFormat`, `Journal` | the digest and a published value of it, the file format with its recovery theorems, the journal object |
| `Coordination`, `Calls`, `Runs`, `Restarts`, `Coordinator`, `Guarantees` | the coordinator as a machine, what every call does, runs with crashes and restarts, the coordinator object, and the guarantees across all layers |
| `Durability`, `Storage` | the machine over the bytes of its journal: runs on a disk, with deaths at any byte |
| `Clocks`, `Expiry`, `Suspension`, `ConfiguredPolicy`, `Shortfalls` | where promises about the clock, expiry, suspension, policy, leases and reconciliation end, and exactly when |
| `Founding` | a federation of one founder: what is derived from it, and the run that creates it; the concrete runs start from it |
| `Text`, `Codec`, `Sampling` | UTF-8 and JSON, the bounded codec, rejection sampling |

Code that works by updating state is imperative here too: the scans, the union-find, the
hasher, the journal, the writer and reader and the coordinator are methods and classes, each
proved against functions that say what they compute; the theorems are about those functions.

Identifiers are natural numbers with zero as nil. Digests are an injective image of the
content they are computed from, except in `Sha256` and the journal, which use the real
function. Sorted duplicate-free vectors whose order carries nothing are sets. Structural
validation of artefacts and the capability evaluation are parameters, so every theorem holds
for any of them. Counters are unbounded; 64-bit limits are written out where the code checks
them.

## Where the code does less than its documentation says

Each of these is a theorem with a concrete failing input, or with the exact condition under
which the promise is kept.

- Re-attesting at the current epoch does not always make a member current: the scan lets
  the artefact with the highest evidence identifier decide (`Membership.ReattestingKeepsCurrentIff`,
  `Membership.ReattestationCanBeOverlooked`).
- Disagreeing proposals are recorded as a conflict but do not stop admission
  (`Proposals.DisagreementNeverBlocks`, `Proposals.DisagreeingProposalsAreAdmitted`).
- The documented STALE answer to an identity mismatch cannot occur
  (`Authority.OutcomesThatOccur`).
- A revocation that could not be written is acknowledged by the next call without ever being
  recorded (`Restarts.AcknowledgedRevocationIsDurableIff`,
  `Restarts.FailedRevocationIsLaterAcknowledged`).
- The logical clock can move back at a restart, although docs/persistence.md:59-60 says it
  never does: exactly after certain calls (`Clocks.ClockMovesBackIff`, `Restarts.ClockMovesBack`).
- So a restart can put an expired delegation term back in force, although
  docs/persistence.md:60-64 says that expired leases stay expired and that no restart revives
  expired authority; leases do stay expired (`Restarts.RecoveredLeasesAreStale`), delegation
  terms do not (`Expiry.RestartRevivesIff`, `Expiry.ExpiredTermIsGrantedAfterRestart`).
- Nor does suspended authority stay fenced over a restart, where docs/persistence.md:62-64
  excludes it: the lost tick makes stale reports fresh again
  (`Suspension.RestartLiftsSuspensionIff`, `Suspension.SuspendedTermIsGrantedAfterRestart`).
- Answers and leases follow the configured policy, not the policy in force that accepted
  evidence establishes (docs/architecture.md:71-72): a grant that needs a lease under the
  policy in force can be given without one, and a lease can last longer than that policy allows
  (`ConfiguredPolicy.LeasesAreRequiredIff`, `ConfiguredPolicy.LifetimesAreBoundedIff`,
  `ConfiguredPolicy.UpdatedPolicyIsNotAsked`).
- An epoch advance can be acknowledged without taking effect (`Restarts.EpochAdvancesIff`,
  `Shortfalls.UsedIdentifierStopsTheEpoch`).
- The epoch is the largest one an accepted advance names, where docs/architecture.md:73 says
  one plus it (`State.EpochIsLargestAdvance`, `State.AdvanceToFiveIsFive`).
- Global mutation resumes after a recovery although members have re-attested only before it,
  where docs/architecture.md:97-101 waits for every established member
  (`Shortfalls.WaitsForEverybodyIff`, `Shortfalls.CompletionKeepsPromiseIff`,
  `Shortfalls.OldReattestationEndsReconciliation`).
- A lease of the previous epoch does not stay fenced, as README.md:120-122 of the repository has
  it, when its holder asked for a later last epoch (`Leases.SurvivesEpochIff`,
  `Shortfalls.LeaseOutlivesItsEpoch`).
- Federation time is moved by every accepted artefact, not by the coordinator's records only
  (`StateProperties.MembersMoveTheClockIff`, `Shortfalls.MemberMovesTheClock`).
- A running coordinator can outgrow the record bound and then cannot be restarted
  (`Restarts.LogsOutgrowTheBound`, `Journal.ReopenWhole`).
- A lease can be issued already expired (`Restarts.FreshLeaseIsHonouredIff`,
  `Shortfalls.LeaseIsIssuedExpired`).
- Intersecting grants loses a right-hand grant inside a left-hand pattern unless some left-hand
  grant between the two sides still reaches it (`Intersections.IntersectionIsCompleteIff`, `Intersections.PatternMeetsMember`).
- The check for a grant both retained and delegated never fires (`Identities.ValidateConstitution`).
- The zero-incarnation check of the partition assessment looks in one direction only
  (`Partition.ZeroIncarnationIsAsymmetric`, `Partition.ZeroIncarnationSplitsOneWay`).
- A journal that ends at the last sequence number opens for writing, and the record appended to
  it is lost at the next start (`Journal.ContinuesAfterCut`, `Journal.NumbersRunOut`).
- A journal at its bound of bytes opens, and no coordinator can start on it, because the start
  needs room for its own record (`Storage.DiskStartsAgain`).
- A lease is bound to its holder's constitution, and docs/authority-model.md:42-45 has every
  binding checked on use; this one is not (`Bindings.ConstitutionIsNotChecked`,
  `Bindings.GrantedUnderAnyConstitution`).
- UNKNOWN is answered also to members about whom there is evidence, where
  docs/authority-model.md:30 says there is none (`Bindings.UnknownExactly`,
  `Bindings.LoneAcceptanceIsUnknown`).

## Model

| member | source | states |
|---|---|---|
| Names.ValidateQualifiedName | src/names.cpp:8-59 | the one-pass scan accepts exactly the names of the grammar (non-empty dot-separated plain segments, lower-case start, wildcard only as the whole last segment), and reports length exactly for over-long ones |
| Names.GrammarByPositions | src/names.cpp:22-58 | the scan's per-character conditions hold everywhere if and only if the segmented name is well formed |
| Names.ConcreteCoversOnlyItself | src/names.cpp:61-76 | a pattern without a wildcard covers exactly itself |
| Names.WildcardCoversBySegments | src/names.cpp:71-74 | `q.*` covers a name if and only if the segments of `q` are a proper prefix of its segments |
| Names.CoverageIsTransitive | src/names.cpp:61-76 | coverage composes, so an intermediate pattern never widens the outer one |
| Scopes.ClassifiedGrantsCoverOnlyThemselves | src/scope.cpp:144-154 | a set of grants over catalogued scopes covers exactly its own elements |
| Intersections.IntersectGrants | src/scope.cpp:156-182 | the result is the set of left-hand grants some right-hand grant covers; the substitution branch is dead |
| Intersections.CoveringPatternsAreNested | src/names.cpp:61-76 | two patterns covering one name are nested |
| Intersections.IntersectionIsSound | src/scope.cpp:156-182 | the intersection covers nothing that either side does not |
| Intersections.IntersectionIsCompleteIff | src/scope.cpp:156-182 | it covers everything both sides cover if and only if every right-hand grant inside a left-hand pattern lies inside some left-hand grant that itself lies inside a right-hand one |
| Intersections.PatternMeetsMember | src/scope.cpp:156-182 | the concrete failure: `a.*` intersected with `a.b` is empty |
| Policies.LastValueIsLast | src/policy.cpp:295-303 | an enabled rule followed by no other of its kind decides the value |
| Policies.SilentPolicy | src/policy.cpp:295-440 | what a policy asks for where no enabled rule speaks |
| Policies.SpeakingPolicy | src/policy.cpp:295-410 | the last enabled rule of its kind sets a number, within its limits; the first enabled one sets a flag |
| Policies.ReconsentExactly | src/policy.cpp:351-364 | re-consent is required unless the last enabled rule that speaks about it, of either kind, waives it |
| Policies.PrecedenceExactly | src/policy.cpp:412-429 | precedence is read from the first enabled rule that covers the grant, and from no other |
| Policies.LeasesAreForMutation | src/policy.cpp:328-339 | a lease is required if and only if the verb mutates and an enabled rule covers the scope |
| Policies.RequiredEndorsements | src/policy.cpp:295-303 | the loop yields the last enabled value, capped |
| Policies.RequiredDistinctParties | src/policy.cpp:305-316 | the loop yields the last enabled value, never below two |
| Policies.MaxLeaseLifetime | src/policy.cpp:341-349 | the loop yields the last enabled value or the default |
| Policies.ObservationFreshness | src/policy.cpp:402-410 | the loop yields the last enabled value or the default |
| Policies.ReconsentRequired | src/policy.cpp:351-364 | two rule kinds speak about re-consent and the last enabled one wins |
| Policies.PrecedenceFor | src/policy.cpp:412-429 | the members of the first rule that covers the grant |
| Identities.ValidateConstitution | src/identity.cpp:211-291 | accepts exactly well-formed constitutions and names a check that fails otherwise; the retained-and-delegated answer never occurs |
| Identities.LocalAndDelegableAreApart | src/identity.cpp:264-289 | no local scope and delegable scope cover one another, patterns included |
| Identities.NothingOwnIsDelegated | src/identity.cpp:225-262 | no term of a well-formed constitution reaches a scope of a domain's namespace, a local or an uncatalogued one |
| Leases.HonouredExactly | src/lease.cpp:8-53 | a lease is honoured for a grant exactly while all six bindings hold |
| Leases.LapsesExactly | src/lease.cpp:8-53 | why a lease is not honoured, state by state: revocation hides the issuer, the issuer the epoch, the epoch the deadline, and all of them the coverage |
| Leases.LapsedStaysLapsed | src/lease.cpp:8-53 | a started lease that is not honoured is never honoured again, as epochs, clocks and incarnations only grow |
| Leases.SurvivesEpochIff | README.md:120-122 | an epoch advance fences a lease in force if and only if the new epoch is past its last epoch |
| Membership.LineageOf | src/membership.cpp:153-172 | every slot below the chosen lineage was closed by the member itself and has a successor, and the chosen one is where that stops |
| Membership.LineageIsUnique | src/membership.cpp:153-172 | there is only one such lineage |
| Membership.LineageIsLargestReachable | src/membership.cpp:165-171 | it is the largest lineage reachable from zero |
| Membership.ReachableLineageIsBounded | src/membership.cpp:166 | pigeonhole: the guard over the artefact count never cuts the search short |
| Membership.MoreEvidenceNeverLowersLineage | src/membership.cpp:153-172 | adding artefacts never lowers a member's lineage |
| Membership.ComparatorsAreOrders | src/membership.cpp:273-303 | every selection rule is a strict weak order, so each scan finds a maximum |
| Membership.OperativeProposalIsNewestSponsored | src/membership.cpp:258-303 | the operative proposal is sponsored by somebody else, belongs to the lineage, and declares the highest generation |
| Membership.FenceIsSticky | src/membership.cpp:539-557 | an accepted fence is in force unless an activation names a strictly later epoch |
| Membership.EstablishedIffStanding | src/membership.cpp:610-729 | Active, Degraded or Admitted is derived exactly when the standing conditions hold; epoch, partition and reconciliation do not occur in them |
| Membership.StandingIsMonotone | src/membership.cpp:351-378 | standing under fewer established members implies standing under more |
| Membership.SuspensionOnlyDegrades | src/membership.cpp:680-729 | partition and reconciliation only ever turn Active into Degraded |
| Membership.AdmissionEvidence | src/membership.cpp:43-131 | behind an admission: a different established sponsor, own consent to exactly the proposed constitution, at least two parties, and the policy's number of established third-party endorsers |
| Membership.ReattestingKeepsCurrentIff | src/membership.cpp:578-600 | re-attesting makes current at every epoch if and only if the last own re-attestation in evidence order names the highest epoch |
| Membership.ReattestationCanBeOverlooked | src/membership.cpp:592-599 | the concrete failure: attested at epoch five, not current at five |
| Lifecycles.OperativeExactly | src/membership.cpp:258-303 | the operative proposal is, exactly, somebody else's in the lineage with the highest generation, of those the one with the lowest identifier |
| Lifecycles.LatestAttestationExactly | src/membership.cpp:397-421 | the re-attestation relied on is, exactly, the own one of the latest epoch, then the highest incarnation, then the highest identifier |
| Lifecycles.ActivationExactly | src/membership.cpp:559-567 | the activation relied on is, exactly, the one of the highest epoch, then the lowest identifier |
| Lifecycles.TermsExactly | src/membership.cpp:744-764 | the terms are those of the own declaration of the latest epoch, ties to the lowest identifier, and without one the constitution's |
| Lifecycles.WithdrawnExactly | src/membership.cpp:765-773 | withdrawn is what the member itself has withdrawn in its lineage |
| Lifecycles.ConsentExactly | src/membership.cpp:305-350 | consent is the member's own acceptance of exactly the proposed constitution, the one with the lowest identifier |
| Lifecycles.CurrentByAttestation | src/membership.cpp:415-417 | identity and declaration are those of the newest own re-attestation |
| Lifecycles.CurrentByProposal | src/membership.cpp:305-350 | without one the declaration is the newest proposal's and the identity the one in the first acceptance of it |
| Lifecycles.CurrentFounder | src/membership.cpp:140-152 | a founder nobody has proposed is who the genesis record says |
| Lifecycles.AdmittedExactly | src/membership.cpp:140-303 | the admitted identity is declared by the newest proposal, or by the genesis record |
| Lifecycles.AdmissionExactly | src/membership.cpp:423-537 | admission holds if and only if the newest proposal's issuer is established, the member has accepted that constitution and parties and endorsements suffice; without a proposal, if and only if the member is the founder |
| Lifecycles.ProposalsConflictExactly | src/membership.cpp:250-303 | a member's own evidence conflicts exactly where somebody else's proposal differs from the newest in its constitution |
| Lifecycles.FencedExactly | src/membership.cpp:539-634 | fenced off if and only if some fence by the coordinator or the member is passed by no activation |
| Lifecycles.CurrentAtExactly | src/membership.cpp:584-599 | current if and only if the own re-attestation with the highest identifier names the epoch or a later one, or without any no activation names another epoch as the highest |
| Lifecycles.AuthorityIsHeldIff | src/membership.cpp:610-729 | federation authority is held if and only if evidence stands behind the member, it has been activated, and its constitution is the admitted one; Active if and only if, besides, nothing impairs it |
| Lifecycles.LifecycleExactly | src/membership.cpp:610-671 | the exact condition of each of the other six lifecycles |
| Lifecycles.DerivedExactly | src/state.cpp:761-819 | the same in a derived state, with its own established members, epoch, partition and reconciliation |
| Lifecycles.AuthorityIsActivated | src/membership.cpp:600-671 | whoever holds authority has an activation in its lineage and the very constitution it was admitted with |
| Proposals.DisagreementNeverBlocks | src/membership.cpp:250-303 | some policy and established set admit a candidate if and only if conditions hold in which the other proposals do not occur |
| Proposals.DisagreeingProposalsAreAdmitted | src/membership.cpp:250-303 | the concrete failure: a recorded constitution conflict and an established member at once |
| MembershipDerivation.SelectLineage | src/membership.cpp:153-172 | the two sets and the guarded loop select the lineage; the guard never ends the search |
| MembershipDerivation.Collect | src/membership.cpp:174-230 | one pass sorts the lineage's artefacts into their kinds |
| MembershipDerivation.ChooseProposal | src/membership.cpp:258-303 | the sponsored proposal of highest generation, ties to the lower identifier |
| MembershipDerivation.FindConsent | src/membership.cpp:305-350 | the member's own acceptance of the proposed constitution |
| MembershipDerivation.CollectEndorsers | src/membership.cpp:351-378 | exactly the established third parties that endorsed the constitution |
| MembershipDerivation.AssessMultiParty | src/membership.cpp:43-131 | satisfied exactly when sponsor, distinct parties and endorsements meet the policy |
| MembershipDerivation.FenceInForce | src/membership.cpp:539-557 | the highest fence issued by the coordinator or the member |
| MembershipDerivation.NewestActivation | src/membership.cpp:559-567 | the activation of highest epoch, ties to the lower identifier |
| MembershipDerivation.DeclarationIsCurrent | src/membership.cpp:578-600 | currency as the last own re-attestation, else the activation, decides it |
| MembershipDerivation.ChooseLifecycle | src/membership.cpp:610-729 | the first applicable rung of the ladder |
| MembershipDerivation.CollectWithdrawals | src/membership.cpp:744-778 | the union of the member's own withdrawn grants |
| MembershipDerivation.DeriveMembership | src/membership.cpp:133-778 | the whole sequence of scans computes the specified derivation |
| Standing.RoundIsMonotone | src/state.cpp:661-713 | a round admits more from more |
| Standing.RoundsIncrease | src/state.cpp:661-713 | the rounds form an increasing chain |
| Standing.UnstableRoundsGrow | src/state.cpp:661-713 | each unstable round adds a member, so the loop stabilises within the member count |
| Standing.EstablishedIsFixpoint | src/state.cpp:661-713 | what the loop settles on is a fixpoint |
| Standing.EstablishedIsLeast | src/state.cpp:661-713 | and is contained in every fixpoint |
| Standing.EstablishedEvidence | src/membership.cpp:437-489 | every established member is the founder without a sponsored proposal, or has consent, parties, endorsers and a sponsor, all established |
| Standing.SponsorEnteredEarlier | src/membership.cpp:437-489 | the sponsor and every endorser entered in a strictly earlier round |
| Standing.SponsorChainToFounder | src/membership.cpp:437-489 | sponsors lead back to the founder |
| Standing.NobodyWithoutFounder | src/state.cpp:522-547 | without exactly one genesis nobody is established |
| Standing.EstablishMembers | src/state.cpp:661-713 | the mutating loop reaches the least fixpoint and never meets its round bound |
| DisjointSets.HalvingKeepsForest | src/partition.cpp:30-36 | path halving keeps ranks rising to the root and every representative |
| DisjointSets.LinkingKeepsForest | src/partition.cpp:38-51 | union by rank keeps the forest |
| DisjointSets.JoiningIsFaithful | src/partition.cpp:38-51 | representatives keep agreeing with linkage by the united pairs |
| DisjointSets.DisjointSet.constructor | src/partition.cpp:24-28 | starts with every element its own representative and nothing united |
| DisjointSets.DisjointSet.Find | src/partition.cpp:30-36 | returns the representative, terminates, and changes no group |
| DisjointSets.DisjointSet.Unite | src/partition.cpp:38-51 | afterwards exactly the pairs united before and this one are linked |
| Graphs.LinkedWithEdge | src/partition.cpp:339-341 | how one more edge changes linkage |
| Partition.ConnectedIffGraphConnected | src/partition.cpp:356-383 | Empty if and only if there are no members, Connected if and only if there are some and the graph of confirmed edges is connected, Split if and only if it is not and everybody is observed, Indeterminate if and only if one of several is not |
| Partition.ComponentsAreClasses | src/partition.cpp:356-383 | the reported groups partition the members into the classes of linkage |
| Partition.EdgesAreMutualConfirmation | src/partition.cpp:294-342 | an edge is exactly mutual confirmation at current incarnations, the higher end's being known; exactly mutual confirmation when all are known |
| Partition.ZeroIncarnationIsAsymmetric | src/partition.cpp:313-321 | with a zero incarnation the check depends on the direction |
| Partition.ZeroIncarnationSplitsOneWay | src/partition.cpp:313-321 | the concrete failure: two members that confirm each other are connected with the lower one at incarnation zero and split with the higher one |
| Partition.PairAssessed | src/partition.cpp:252-342 | two members with one fresh report each are connected if and only if each reports reaching the other at its current incarnation and the higher one is not at incarnation zero, and split otherwise; without a fresh report they are indeterminate |
| Partition.LatestReportIsNewest | src/partition.cpp:281-289 | the report relied on is usable and newest, and every report of the pair seen before it is strictly older |
| Partition.ReportsAreUsable | src/partition.cpp:252-280 | only reports by and about members, of this epoch and fresh, are used |
| Reachability.UsableExactly | src/partition.cpp:252-280 | a report is used if and only if an observation contains it, of this epoch, between different members, neither in the future nor too old |
| Reachability.LatestExactly | src/partition.cpp:281-289 | the report relied on is, exactly, the newest of the pair and the first of its age |
| Reachability.JoinedExactly | src/partition.cpp:301-342 | two members are joined if and only if each one's newest usable report says the other is reachable at its current incarnation, and the higher one is not at incarnation zero |
| Reachability.MembersAreSortedOut | src/partition.cpp:344-354 | who is mutually reachable, unreachable and unobserved, by the reports |
| Reachability.OneWayIsSplit | src/partition.cpp:331-332 | one report of the contrary is enough: reachable one way, unreachable the other, and the two are split |
| Reachability.PartitionOfState | src/state.cpp:715-727 | a state's partition is the assessment of its established members at their current incarnations, over what is fresh at its time and of its epoch |
| Partition.Tabulate | src/partition.cpp:252-289 | the nested loops tabulate the latest usable report per pair |
| PartitionAssessment.ScanTable | src/partition.cpp:294-322 | the scan finds exactly the confirmed pairs and the flags |
| PartitionAssessment.UnitePairs | src/partition.cpp:323-342 | uniting them makes groups equal components |
| PartitionAssessment.GroupByRoot | src/partition.cpp:356-366 | grouping by representative yields the components |
| PartitionAssessment.AssessPartition | src/partition.cpp:209-384 | the whole assessment equals the graph-level definition |
| State.Accepted | src/state.cpp:378-444 | the accepted list is in evidence order and holds exactly the artefacts whose identifier's copies all agree, of this federation and valid |
| State.EvidenceOrderUnique | src/state.cpp:378-444 | a list in evidence order is determined by its elements |
| State.EpochIsLargestAdvance | src/state.cpp:575-592 | the epoch is the largest any accepted advance names, at least one |
| State.AdvanceToFiveIsFive | src/state.cpp:575-592 | the concrete difference from the document: an advance to five makes the epoch five |
| State.ClockIsLargestTime | src/state.cpp:575-592 | the clock is the largest time in any accepted artefact, at least the tick given |
| State.UndisputedMeansAllAgree | src/state.cpp:847-867 | comparing with the first claimant decides agreement of every pair |
| State.LedgerDropsNothing | src/state.cpp:1042-1054 | within the bound, sorting, deduplicating and truncating lose no entry |
| StateDerivation.PrepareArtifacts | src/state.cpp:378-444 | quarantine and canonical order compute the accepted list |
| StateDerivation.FindGenesis | src/state.cpp:522-547 | exactly one genesis counts, several are a conflict |
| StateDerivation.ChoosePolicy | src/state.cpp:549-573 | the newest accepted policy update, else the genesis policy, else the configured one |
| StateDerivation.EpochAndClock | src/state.cpp:575-592 | one pass computes epoch, clock and the advances |
| StateDerivation.FindRecovery | src/state.cpp:594-605 | the highest advance that recovers from a partition |
| StateDerivation.IndexMembers | src/state.cpp:633-660 | every subject, founder and lease holder, with the artefacts about each |
| StateDerivation.GroupClaims | src/state.cpp:834-838 | live claims grouped by grant, in order |
| StateDerivation.FindConflict | src/state.cpp:847-867 | the pairwise comparison finds the first disagreement |
| StateDerivation.DetectConflicts | src/state.cpp:833-907 | the grants contained, won by precedence, and the conflicts recorded |
| StateDerivation.EffectiveAuthority | src/state.cpp:909-1007 | every declared term is granted, withheld or suspended as the regime says |
| StateDerivation.DeriveState | src/state.cpp:485-1086 | the whole derivation equals the specified state, or reports the member bound |
| StateProperties.OrderOfEvidenceIsIrrelevant | src/state.cpp:378-444 | any reordering or repetition of the artefacts gives the same state |
| StateProperties.FinalStandingIsTheFixpoint | src/state.cpp:761-819 | the final Active, Degraded and Admitted members are exactly the fixpoint; only Active may become Degraded |
| StateProperties.AnnouncementsLeaveStandingAlone | src/state.cpp:575-592 | an accepted federation-level record such as an epoch advance leaves the established set unchanged |
| StateProperties.MembersMoveTheClockIff | src/state.cpp:585-591 | an accepted artefact, whoever issued it, leaves the clock alone if and only if it names no later time |
| StateProperties.EstablishedMembersAreSponsored | src/state.cpp:661-713 | every member derived established has a sponsor chain to the founder |
| StateProperties.AmbiguousGenesisEstablishesNobody | src/state.cpp:529-547 | with no or several genesis records no member is established |
| StateProperties.HeldGrant | src/state.cpp:909-1007 | whatever is in effective authority is a declared term granted under the regime |
| StateProperties.TermGrantedExactly | src/state.cpp:921-1007 | a term is granted if and only if all nine conditions hold |
| StateProperties.CoHoldersAgree | src/state.cpp:821-907 | if two members hold a grant, every live claim on it is shared, on equivalent terms |
| StateProperties.ExclusiveClaimHasOneHolder | src/state.cpp:965-990 | a live exclusive claim leaves at most one holder |
| StateProperties.DisputedGrantHasOnlyTheNamedHolder | src/state.cpp:868-907 | a disputed grant is held only by the one claimant configured precedence names |
| StateProperties.SuspensionIsTotal | src/state.cpp:990-1000 | while suspended nobody holds a global-mutation grant |
| StateProperties.HeldGrantsAreConcrete | src/state.cpp:921-935 | held grants are catalogued, not local, and cover only themselves |
| Provenance.GenesisExactly | src/state.cpp:522-547 | the genesis record is the accepted one of its kind if there is no other |
| Provenance.NewestUpdateIsInForce | src/state.cpp:549-571 | the policy in force is that of the accepted update with the highest generation, of those the one with the lowest identifier |
| Provenance.FirstPolicyIsInForce | src/state.cpp:566-571 | without an update it is the only genesis record's, and without exactly one of those the configured one |
| Provenance.CompletionCountsExactly | src/state.cpp:594-614 | completion counts if and only if some record of it names an epoch no recovery advance is past |
| Provenance.ReconcilingExactly | src/state.cpp:594-759 | the federation is reconciling if and only if there was a recovery and no completion counts or an established member has no re-attestation |
| Provenance.MembersAreExactly | src/state.cpp:633-654 | derived are exactly the subjects of accepted artefacts, the founder and lease holders |
| Provenance.StateExactly | src/state.cpp:522-660 | epoch, time, policy and members of a state by the accepted artefacts |
| Provenance.ClashExactly | src/state.cpp:839-867 | a grant is disputed if and only if of two live claims on it one is exclusive or their terms differ |
| Provenance.DisputeExactly | src/state.cpp:876-907 | a dispute is won exactly by the member the first precedence rule names once among the claimants, nobody else being named |
| Provenance.WithheldExactly | src/state.cpp:876-907 | otherwise it is withheld from everybody, under all claimants and the kind of disagreement |
| Provenance.AuthorityExactly | src/state.cpp:909-1014 | granted, suspended and withheld are exactly the declared grants that are in order, by suspension and degradation |
| Provenance.ConflictsShownExactly | src/state.cpp:816-908 | a conflict shows at a member if and only if its own evidence conflicts or it is a claimant |
| Provenance.FederationConflictsExactly | src/state.cpp:534-907 | the federation's conflicts are several genesis records and every withheld grant |
| Authority.EvaluateAuthority | src/authority.cpp:346-716 | the ladder of searches returns the outcome of the first documented check that fails, and the effective authority that goes with it |
| Authority.FirstFailureDecides | docs/authority-model.md:6-21 | the first check that does not pass decides, whatever the later ones say |
| Authority.GrantedExactly | src/authority.cpp:346-716 | GRANTED if and only if addressed here, fresh, at the current epoch, and local or meeting every federation condition |
| Authority.ReplayedExactly | src/authority.cpp:380-387 | REPLAYED exactly for recorded identifiers addressed here |
| Authority.OutcomesThatOccur | src/authority.cpp:484-532 | three outcomes are never decided, and STALE is answered if and only if an addressed, unreplayed request has seen an earlier epoch, or passes every check up to the lease and presents a required lease that is stale |
| Authority.LocalAuthorityIgnoresTheFederation | src/authority.cpp:408-420 | members, leases, partition and policy do not enter an answer about local authority |
| Authority.EvaluateLocalAuthority | src/authority.cpp:301-344 | granted exactly for retained authority, refused otherwise |
| Authority.LocalAnswersAgree | src/authority.cpp:301-344 | what a well-formed member grants itself the coordinator would grant, and none of it is delegated |
| Authority.JudgeLease | src/authority.cpp:618-671 | the lease step passes exactly for a known, bound, valid, covering lease and otherwise names the documented outcome |
| Authority.JudgeUndelegated | src/authority.cpp:546-613 | why a grant not in force is not: withdrawn, forbidden, suspended, withheld or never delegated |
| EndToEnd.GrantedIsBacked | src/authority.cpp:346-716 | a grant beyond local authority rests on the exact current identity in six fields, with the constitution that was admitted, on an activation, a sponsor chain, and a declared undisturbed term |
| EndToEnd.GrantedLeaseIsHonoured | src/authority.cpp:618-671 | a lease required by the policy the question is put under is in the table, honoured now, covering, and bound to this incarnation and generation |
| EndToEnd.SuspendedGlobalMutationIsNeverGranted | src/authority.cpp:546-614 | while suspended, no policy argument makes a global mutation granted |
| EndToEnd.ExclusiveScopesAreGrantedToOne | src/state.cpp:965-1006 | a scope claimed exclusively is never granted to two members |
| EndToEnd.RecordedRequestsAreReplays | src/authority.cpp:380-387 | a recorded request is answered REPLAYED, even for local authority |
| Outcomes.UnheardExactly | src/authority.cpp:408-467 | UNSUPPORTED, UNKNOWN and INCOMPLETE, each if and only if |
| Outcomes.ConflictingExactly | src/authority.cpp:534-544 | CONFLICTING if and only if the member is recognised and a conflict touches the grant |
| Outcomes.DegradedExactly | src/authority.cpp:580-710 | DEGRADED if and only if the grant is withheld for no other reason, or in force and backed and a degraded member may not use it |
| Outcomes.FencedExactly | src/authority.cpp:470-699 | FENCED if and only if the member is fenced or leaving, its identity superseded, the grant suspended, the lease foreign or revoked, or global mutation halted |
| Outcomes.StaleExactly | src/authority.cpp:399-662 | STALE if and only if the request has seen an earlier epoch, or its own required lease has run out or is from another epoch or incarnation |
| Outcomes.RefusedExactly | src/authority.cpp:360-669 | REFUSED if and only if one of its nine reasons holds |
| Outcomes.OwnDomainIsGranted | src/authority.cpp:408-419 | a scope of a domain's own namespace is granted to whoever asks in time, unless the catalogue lists it otherwise |
| Outcomes.SuspendedMutationIsFenced | src/authority.cpp:566-579 | while the federation suspends global mutation, one that is otherwise in order is answered FENCED, or REFUSED if the policy forbids it |
| Outcomes.DegradedMutationIsDegraded | src/authority.cpp:580-592 | a degraded member's mutation that is otherwise in order is answered DEGRADED, or REFUSED if the policy forbids it |
| Outcomes.DisputedGrantIsConflicting | src/authority.cpp:534-544 | a grant withheld for clashing claims is answered CONFLICTING to every recognised claimant |
| Bindings.ConstitutionIsNotChecked | src/state.cpp:1016-1040 | the constitutions leases are bound to enter no derived state, and so no answer |
| Bindings.GrantedUnderAnyConstitution | src/authority.cpp:640-649 | wherever a required lease lets a grant through, it does so bound to any other constitution |
| Bindings.UnknownExactly | src/authority.cpp:428-461 | UNKNOWN if and only if nothing names the member, or its lineage holds no proposal, departure or retirement and it is not the founder |
| Bindings.LoneAcceptanceIsUnknown | docs/authority-model.md:30 | the concrete failure: evidence about a member, and the answer that there is none |
| Bytes.LeRoundTrip | src/codec.cpp:11-36 | storing and loading a fixed-width integer is the identity |
| Bytes.LeIsOnto | src/codec.cpp:11-36 | every byte string is the encoding of what it decodes to |
| Bytes.StoreLe | src/codec.cpp:26-36 | the loop writes exactly the little-endian bytes and nothing else |
| Bytes.LoadLe | src/codec.cpp:11-24 | the loop reads exactly the little-endian value |
| Sha256.ShiftsRotate | src/sha256.cpp:25-51 | the sigma functions written with shifts are the standard's rotations |
| Sha256.PaddingIsStandard | src/sha256.cpp:149-163 | the bytes appended are the padding of FIPS 180-4 section 5.1.1 |
| Sha256.Hasher.constructor | src/sha256.cpp:59 | an empty stream at the initial hash value |
| Sha256.Hasher.CompressBlock | src/sha256.cpp:69-111 | one block as FIPS 180-4 section 6.2.2 |
| Sha256.Hasher.Update | src/sha256.cpp:113-139 | any piece extends the message; after finishing it changes nothing |
| Sha256.Hasher.Finish | src/sha256.cpp:149-172 | the digest of the whole message, however often it is asked for |
| Sha256.HashOf | src/sha256.cpp:174-184 | the one-shot digest |
| Sha256.HashInPieces | src/sha256.cpp:113-172 | every split of a message gives the digest of the whole |
| Sha256Example.DigestOfAbc | tests/unit/test_foundation.cpp:21-22 | the digest of "abc" is the published one |
| JournalFormat.EncodedIsFound | src/journal.cpp:360-379 | an encoded record at the front is read back, whatever follows |
| JournalFormat.PartialIsTorn | src/journal.cpp:501-539 | any proper part of a record is a torn tail |
| JournalFormat.FoundIsEncoded | src/journal.cpp:501-621 | whatever the scan accepts is exactly the encoding of a supported record |
| JournalFormat.ScanIsSound | src/journal.cpp:480-621 | for every file the recovered records are a history whose encoding is literally the start of the file, clean exactly when nothing is left |
| JournalFormat.ScanEndsExactly | src/journal.cpp:493-621 | for every file the scan ends as the bytes behind the recovered records demand: torn exactly over an incomplete record, corrupt exactly over a complete one that fails trailer or digest or does not rise, and so on |
| JournalFormat.ScanAfterHistory | src/journal.cpp:493-621 | behind a history its records come back and what follows decides |
| JournalFormat.HeaderLayout | src/journal.cpp:350-380 | the bytes of the header and of every trailer |
| JournalFormat.RecordLayout | src/journal.cpp:360-380 | the bytes before a payload |
| JournalFormat.KeptExactly | src/journal.cpp:501-539 | the kept records end before the cut and the next one after it |
| JournalFormat.CutFrom | src/journal.cpp:480-621 | a history cut anywhere scans to exactly the records wholly before the cut, or to the record bound |
| Journal.RecoveryIsSound | src/journal.cpp:383-646 | for any file: the recovered history is what the file holds after the header, only a torn tail is ever removed |
| Journal.RecoveryExactly | src/journal.cpp:383-646 | opening any file, exactly: outcome, what is removed and whether it is writable, by the bytes behind the recovered records |
| Journal.OnlyIncompleteRecordsAreRemoved | docs/persistence.md:29-40 | whatever opening removes is an incomplete record |
| Journal.DamagedRecordIsRefused | docs/persistence.md:35 | behind a history a complete record that is damaged or does not rise is refused as corrupt, and not a byte of the file changes |
| Journal.CutRecovers | src/journal.cpp:480-646 | a journal cut after its header recovers exactly the whole records, is truncated there and stays writable, if and only if the record bound is not met |
| Journal.CutInsideHeader | src/journal.cpp:410-439 | a cut inside the header is refused, an empty file recreated |
| Journal.AppendAfterCut | src/journal.cpp:656-688 | after a cut and one more append, under any number above those kept, a restart recovers what was left and the new record |
| Journal.ContinuesAfterCut | src/journal.cpp:620-688 | the same for the number the program continues with, which may be that of a dropped record: if and only if the numbers have not run out |
| Journal.NumbersRunOut | src/journal.cpp:628 | the concrete failure: a journal ending at the last number, and an append that is not recovered |
| Journal.ReopenWhole | src/journal.cpp:489-500 | a complete history is recovered whole if it is within the bound and refused otherwise, though appending never checks it |
| Journal.Handle.Open | src/journal.cpp:383-646 | opening yields the recovered state and continues the sequence |
| Journal.Handle.Append | src/journal.cpp:656-688 | appends exactly one encoded record or leaves the file alone; sequences stay increasing; an exhausted sequence is reported after the record was written |
| Journal.Handle.Load | src/journal.cpp:701-742 | returns the history recovered at opening, not what was appended since, if it is within the bounds, and never a truncation error |
| Journal.Examine | src/journal.cpp:489-621 | the checks of one scan pass, with the real digest |
| Journal.ScanRecords | src/journal.cpp:480-621 | the loop computes the scan |
| Journal.Reopen | src/journal.cpp:403-646 | header checks, scan and repair as specified |
| Runs.LogReads | src/coordinator.cpp:222-320 | reading a log the coordinator wrote gives known leases for all revocations, fresh identifiers and distinct requests |
| Runs.OwnLogsAreAccepted | src/coordinator.cpp:321-333 | such a log is refused only by the record bound, never for a revocation without its lease |
| Runs.CallKeeps | src/coordinator.cpp:589-1022 | every call, answered or failed, keeps memory in agreement with the log and adds at most one event |
| Runs.StartAgrees | src/coordinator.cpp:334-348 | a restart agrees with the log, under an incarnation above every recorded one |
| Runs.RunsKeepAgreement | src/coordinator.cpp:195-348 | in every world of every run memory is what the log reads as |
| Runs.RestartRestores | src/coordinator.cpp:195-348 | after a crash the same artefacts, ledger, observations and leases are found and every recorded revocation is in force |
| Runs.RunsRemember | src/coordinator.cpp:222-320 | nothing recorded is ever taken back later in a run |
| Runs.AnsweredIsRecorded | src/coordinator.cpp:818-850 | a request is on record before it is answered |
| Runs.ReplayFence | src/coordinator.cpp:806-853 | once answered, every later answer to the identifier is REPLAYED, through crashes and restarts |
| Runs.AtMostOneGrant | src/coordinator.cpp:806-853 | at most one call in a run is ever answered GRANTED for an identifier |
| Restarts.LeaseIdentifiersAreFresh | src/coordinator.cpp:903-945 | no lease identifier is issued twice in a run; each issue adds a key |
| Restarts.LeasesCoverOnlyHeldGrants | src/coordinator.cpp:855-932 | a lease is for a holder of authority, over grants it holds, within the configured policy's lifetime, bound to its current identity |
| Restarts.FreshLeaseIsHonouredIff | src/coordinator.cpp:893-931 | a lease just issued is honoured in the state derived for its issue if and only if no accepted artefact names a time past its deadline |
| Restarts.RecoveredLeasesAreStale | src/coordinator.cpp:334-348 | a lease from before a restart is still known and never honoured again |
| Restarts.RecordedRevocationsStay | src/coordinator.cpp:321-333 | a recorded revocation is in force in every later world |
| Restarts.AcknowledgedRevocationIsDurableIff | src/coordinator.cpp:949-982 | an acknowledged revocation is recorded if and only if the lease was not already marked without a record |
| Restarts.FailedRevocationIsLaterAcknowledged | src/coordinator.cpp:957-982 | the concrete failure: failed write, acknowledged repeat, not revoked after a restart |
| Clocks.ClockAfterRestart | src/coordinator.cpp:220-320 | a restart resumes at the highest tick the configuration or any record names |
| Clocks.AheadAfter | src/coordinator.cpp:806-1022 | what each call does to the lead of the tick in memory over the log |
| Clocks.ClockMovesBackIff | docs/persistence.md:59-60 | over every run: a crash and restart now moves the clock back if and only if some earlier call ticked without recording the tick it moved to, no record naming a later one, and no call or restart has caught up since |
| Restarts.ClockMovesBack | src/coordinator.cpp:1003-1004 | the concrete failure: one observation, one restart, one tick lost |
| Expiry.RestartKeepsInputs | src/coordinator.cpp:195-348 | a restart leaves evidence, observations and lease holders as they were |
| Expiry.DerivationKeeps | src/state.cpp:761-832 | another time can change a member's derivation only between Active and Degraded |
| Expiry.ClaimsIgnoreTime | src/state.cpp:833-908 | the live claims are the same at any time |
| Expiry.RecoveredClock | src/state.cpp:575-592 | the recovered federation clock is at most a tick if and only if no record, accepted artefact or configuration names a later one |
| Expiry.InForceAfterRestart | src/state.cpp:909-1007 | what is in force after a crash and restart is what is in force before it, read at the recovered tick |
| Expiry.RestartRevivesIff | docs/persistence.md:59-64 | a restart puts an expired term back in force if and only if, all read before the crash, it is in order and unhindered at the recovered tick, memory's tick was past its deadline and nothing durable names a tick beyond it |
| Expiry.ExpiredTermIsGrantedAfterRestart | src/state.cpp:956-964 | the concrete failure: not granted before the crash because the term has expired, granted after the restart |
| Suspension.RestartLiftsSuspensionIff | docs/persistence.md:62-64 | a restart puts a suspended term back in force if and only if, all read before the crash, the partition suspends it now and no longer does at the recovered tick, and nothing else stands in its way |
| Suspension.PairPartition | src/partition.cpp:252-330 | two members whose mutual reports are good for one tick: connected up to it, indeterminate afterwards |
| Suspension.PairTerm | src/state.cpp:909-1007 | the founder's global mutation is in force up to then and suspended afterwards |
| Suspension.SuspendedTermIsGrantedAfterRestart | src/state.cpp:989-1000 | the concrete failure: a global mutation suspended and not granted before the crash, granted after the restart on the same evidence and reports |
| Restarts.BoundIsNotChecked | src/coordinator.cpp:984-1005 | past the record bound an observation is still acknowledged, and the log it leaves is refused |
| Restarts.LogsOutgrowTheBound | src/coordinator.cpp:984-1005 | a run that reaches the bound: every observation is acknowledged and the next start is refused |
| Restarts.EpochAdvancesIff | src/coordinator.cpp:1137-1188 | an acknowledged advance takes effect if and only if no artefact of any kind had its evidence identifier; standing is untouched |
| Shortfalls.UsedIdentifierStopsTheEpoch | src/coordinator.cpp:1166-1177 | the concrete failure: a report under that identifier, an acknowledged advance, and the epoch stays |
| Shortfalls.MemberMovesTheClock | docs/architecture.md:74-75 | the concrete failure: a member's report moves federation time from one to a million |
| Shortfalls.LeaseIsIssuedExpired | src/coordinator.cpp:893-931 | the concrete failure: a lease issued that has expired in the state it is issued over |
| Shortfalls.LeaseOutlivesItsEpoch | src/coordinator.cpp:922-928 | the concrete failure: a lease of epoch one honoured after recovery to epoch two |
| Shortfalls.WaitsForEverybodyIff | src/state.cpp:737-758 | the suspension waits for everybody to re-attest since the recovery if and only if it is not the case that reconciliation is recorded, everybody has some re-attestation, and somebody has only old ones |
| Shortfalls.CompletionKeepsPromiseIff | src/coordinator.cpp:1190-1244 | recording completion keeps that promise if and only if somebody established has never re-attested or everybody has since the recovery |
| Shortfalls.OldReattestationEndsReconciliation | src/state.cpp:745-752 | the concrete failure: reconciliation ends on a re-attestation from before the split |
| Founding.FoundingRun | src/coordinator.cpp:350-405 | started on an empty disk and given the founding records, the coordinator holds exactly them in memory and log |
| Founding.PlainConfigIsPlain | src/identity.cpp:211-291 | the configuration the concrete runs need exists, and their founder passes constitution validation |
| Founding.FounderState | src/state.cpp:522-1014 | from such evidence one member is derived, without conflicts, holding its term if and only if it is in force |
| Founding.FounderGranted | src/authority.cpp:346-716 | asked under its own identity it is granted its term if and only if the term is in force |
| Calls.SubmissionExactly | src/coordinator.cpp:589-676 | what a submission is answered, each answer exactly, and that nothing but a valid new artefact is recorded |
| Calls.SubmissionTakesEffect | src/coordinator.cpp:589-676 | applied, it is accepted and nothing else changes; conflicting, everything under its identifier is set aside; otherwise nothing changes |
| Calls.RecordExactly | src/coordinator.cpp:406-427 | when a decision is recorded and acknowledged, and that time moves only then |
| Calls.AdvanceExactly | src/coordinator.cpp:1137-1188 | when an epoch advance is acknowledged |
| Calls.InputsExactly | src/coordinator.cpp:161-193 | the state is derived from all of memory |
| Calls.EvaluationExactly | src/coordinator.cpp:806-853 | an evaluation is answered if and only if it can be derived and is or can be put on record |
| Calls.LeaseExactly | src/coordinator.cpp:855-947 | a lease is drawn up under exactly these conditions and says what was asked for |
| Calls.RevocationExactly | src/coordinator.cpp:949-982 | a known lease is always marked, no other is touched, and when that is acknowledged |
| Calls.ObservationExactly | src/coordinator.cpp:984-1005 | an observation replaces its observer's previous one and no other |
| Calls.TimeExactly | src/coordinator.cpp:1007-1022 | time moves forward only, recorded or not |
| Calls.EveryCallMindsItsPart | src/coordinator.cpp:589-1244 | each part of memory is changed by its own operations only, and the log grows by at most one record |
| Coordinator.Coordinator.constructor | src/coordinator.cpp:334-348 | memory from the log and the incarnation record |
| Coordinator.Coordinator.SubmitArtifact | src/coordinator.cpp:589-676 | the submission step; both copies of conflicting evidence are kept |
| Coordinator.Coordinator.RecordDecision | src/coordinator.cpp:406-427 | the step that records a coordinator-issued artefact once |
| Coordinator.Coordinator.Evaluate | src/coordinator.cpp:806-853 | derivation, decision and ledger as one step |
| Coordinator.Coordinator.IssueLease | src/coordinator.cpp:855-947 | the lease step, checks in order, record before table |
| Coordinator.Coordinator.RevokeLease | src/coordinator.cpp:949-982 | the revocation step, table before record |
| Coordinator.Coordinator.ReportObservation | src/coordinator.cpp:984-1005 | the observation step |
| Coordinator.Coordinator.AdvanceTime | src/coordinator.cpp:1007-1022 | the clock step; the tick moves even if the record fails |
| Coordinator.Coordinator.AdvanceEpoch | src/coordinator.cpp:1137-1188 | the epoch step |
| Coordinator.LoadJournal | src/coordinator.cpp:195-348 | the record loop and the revocations after it compute the recovered memory |
| Durability.LogReadsBack | src/coordinator.cpp:222-320 | decoding the stored records gives the log |
| Durability.LogIsHistory | src/journal.cpp:656-688 | a coordinator's log is a history the scan accepts |
| Durability.AppendedFile | src/journal.cpp:656-688 | an event appends the bytes of one record |
| Durability.TornAppend | src/journal.cpp:628-646 | a record cut at any byte leaves the log without it, or with it if every byte arrived |
| Durability.CrashLeavesEitherLog | src/coordinator.cpp:154-159 | a crash at any byte of any call leaves one of exactly two worlds |
| Storage.HeldOpens | src/journal.cpp:410-646 | what a stopped coordinator left opens as exactly its log below the record bound; a part of the header is refused for good |
| Storage.CutStart | src/coordinator.cpp:334-348 | a death at any byte of a start, the new header included, leaves a file that holds the log before or after it |
| Storage.UnwrittenLeavesLog | src/coordinator.cpp:154-159 | no call whose record was not written changes the log |
| Storage.DiskRunsAreRuns | src/coordinator.cpp:154-348 | every run over the bytes of the journal, with deaths at any byte of any append or start, is a run of the machine; at every point the file is the image of its log, or holds it with a part of one record |
| Storage.DiskOpensAgain | src/journal.cpp:410-439 | below the record bound the journal a stopped coordinator left opens for writing if and only if it did not die inside the header |
| Storage.DiskStartsAgain | src/coordinator.cpp:334-348 | the coordinator starts on it if and only if, besides, the file has room for the record of the new incarnation |
| Storage.AtMostOneGrantOnDisk | src/coordinator.cpp:806-853 | no identifier is answered GRANTED twice, wherever the process dies |
| Storage.OpenStored | src/journal.cpp:383-646 | the journal object opened on what was left stores exactly the log and continues its numbering |
| Storage.StoreEvent | src/journal.cpp:656-688 | appending through the journal object extends the image by the event if and only if there is room for it |
| Guarantees.GrantsAreBacked | src/coordinator.cpp:806-853 | every grant of the running coordinator beyond local authority is backed by evidence in memory |
| Guarantees.GrantsRestOnLiveLeases | src/coordinator.cpp:806-853 | a lease the configured policy requires is unrevoked and issued by this very incarnation |
| Guarantees.DeadLeaseIsNoLease | src/authority.cpp:618-671 | a revoked, foreign or unknown lease is worth exactly as much as no lease, under any policy |
| Guarantees.RequiredLeasesCarryTheGrant | src/coordinator.cpp:817 | where the configured policy requires a lease, a grant rests on the one presented |
| Guarantees.RevokedLeasesNeverGrant | src/coordinator.cpp:949-982 | after a recorded revocation no grant rests on the lease: whatever is granted with it is granted without any, through any restarts and under any policy |
| Guarantees.OldLeasesNeverGrant | src/coordinator.cpp:334-348 | no grant rests on a lease from before a restart, under any policy |
| Guarantees.SuspensionBindsTheCoordinator | src/coordinator.cpp:806-853 | while suspended no call grants a global mutation |
| ConfiguredPolicy.GrantedButForLease | src/coordinator.cpp:806-853 | an answer beyond local authority is GRANTED if and only if everything but the lease is in order, the lease step passes and the record is written |
| ConfiguredPolicy.UnleasedGrant | src/authority.cpp:618-624 | without a lease, if and only if the configured policy asks for none, whatever the policy in force says |
| ConfiguredPolicy.LeasesAreRequiredIff | src/coordinator.cpp:817 | every grant that needs a lease under the policy in force rests on a live one if and only if the configured policy asks for one wherever the policy in force does, over what is otherwise grantable |
| ConfiguredPolicy.CanLeaseExactly | src/coordinator.cpp:862-905 | some request is issued a lease if and only if the state is derivable, a member holds authority with a grant in force, the configured lifetime is not zero, and clock and table have room |
| ConfiguredPolicy.LifetimesAreBoundedIff | src/coordinator.cpp:886-897 | no lease outlasts the policy in force if and only if none can be issued, by those conditions, or the longest the configured policy allows does not |
| ConfiguredPolicy.UpdatedPolicyIsNotAsked | src/state.cpp:550-572 | the concrete failure: an accepted update requires leases of ten ticks at most; the grant is given without one, and a lease of a hundred thousand issued |
| Text.EncodedIsChar | src/text.cpp:17-33 | every scalar value is written as one character of RFC 3629 section 4 that stands for it |
| Text.CharIsEncoded | src/text.cpp:17-33 | every character of the grammar is what is written for its code point, so forms are shortest and unique |
| Text.SequenceIsChar | src/text.cpp:45-87 | mask, range and surrogate tests describe exactly the grammar's multi-byte characters |
| Text.SequenceAt | src/text.cpp:49-84 | the length of the character at a position, zero if none |
| Text.Utf8IsValid | src/text.cpp:45-87 | accepts exactly UTF8-octets of RFC 3629 section 4 |
| Text.Utf8Sanitize | src/text.cpp:89-146 | characters kept, each other byte replaced by U+FFFD |
| Text.SanitizedIsUtf8 | src/text.cpp:89-146 | the output is always valid |
| Text.SanitizedIffValid | src/text.cpp:89-146 | sanitising is the identity exactly on valid text |
| Text.JsonEscape | src/text.cpp:180-279 | the quoted, escaped text |
| Text.EscapedReads | src/text.cpp:180-279 | a reader of RFC 8259 section 7 strings gets the sanitised text back |
| Text.JsonRoundTrip | src/text.cpp:180-279 | reading the escaped text never fails and returns the original exactly when it was valid |
| Text.StrayByteIsReplaced | tests/unit/test_foundation.cpp:227-230 | a stray byte between two letters becomes one replacement character |
| Text.EscapesAre | src/text.cpp:187-222 | what is escaped, and how |
| Codec.GrantsRoundTrip | src/scope.cpp:184-213 | decoding an encoded list gives the same grants and leaves what followed |
| Codec.GrantsAreEncoded | src/scope.cpp:198-213 | whatever the decoder accepts is exactly an encoding of valid grants within the bound |
| Codec.BytesRoundTrip | src/codec.cpp:88-102 | length-prefixed bytes read back within the bound |
| Codec.BytesAreEncoded | src/codec.cpp:219-235 | whatever is read is exactly a length-prefixed encoding within the bound |
| Codec.BytesFailExactly | src/codec.cpp:219-235 | a length-prefixed field is refused exactly for its length or for missing bytes, the bound first |
| Codec.GrantFailsExactly | src/scope.cpp:113-140 | each reason a grant is refused for, exactly |
| Codec.GrantBytes | src/scope.cpp:105-111 | the layout on one grant: count, length, scope and verb |
| Codec.NamesAreAscii | src/scope.cpp:105-111 | well-formed names are valid text of one byte a character within the bound |
| Codec.Writer.TextField | src/codec.cpp:104-122 | bound and validity are checked before anything is written |
| Codec.Writer.PutGrants | src/scope.cpp:184-196 | writes the encoding, or nothing when the bound is exceeded |
| Codec.Reader.Number | src/codec.cpp:137-184 | fixed-width reads, untouched on truncation |
| Codec.Reader.Boolean | src/codec.cpp:186-195 | only zero and one are booleans |
| Codec.Reader.TextField | src/codec.cpp:219-248 | length, bound, truncation and validity, in that order |
| Codec.Reader.GetGrant | src/scope.cpp:113-140 | scope by the name grammar, verb by range |
| Codec.Reader.GetGrants | src/scope.cpp:198-213 | the loop parses exactly the counted list |
| Codec.Reader.ExpectEnd | src/codec.cpp:263-268 | succeeds exactly when nothing is left |
| Sampling.Below | src/random.cpp:66-79 | the first draw at or above the threshold, reduced |
| Sampling.AcceptedValuesAreUniform | src/random.cpp:66-79 | every remainder is left by equally many accepted values, fewer than the bound are rejected |
| Sequences.PickIsMaximal | src/membership.cpp:559-567 | a scan that replaces its choice by whatever beats it ends with a maximum |
| Sequences.PickIsFirstMaximum | src/partition.cpp:281-289 | and keeps the first among equals |

## Left out

- Sockets, listeners, worker threads, locks and message dispatch: each public coordinator operation is one atomic step.
- Operating-system file calls: a file is a byte sequence, an append either fails without a trace or is cut at some byte; failed flushes that leave residue are not modelled.
- Read-only and truncating open modes, `Journal::compact`, and the running coordinator without a journal.
- The choice of decisions in `decide_locked`, and the guards of fencing, retiring and completing a reconciliation: runs allow any validated record there.
- `Artifact::validate`, `evaluate_compatibility` and `validate_policy`: parameters or not modelled.
- The encodings of whole artefacts, leases, decisions, policies, terms and observations: the log is modelled at the level of events, and the journal theorems hold for any payload coding that reads back.
- Policy, identity, genesis and epoch-state journal records: the loader reads them, the coordinator never writes them.
- Reason codes and texts, contributions, summaries, rendering, statistics, digests of states and decisions.
- Equivocation diagnostics, duplicate counters and the list of stale observers, which depend on arrival order.
- The order of lease views, which follows the bytes of derived identifiers.
- Genesis creation inside `create`: a genesis record is one of the recorded decisions.
- 64-bit wrap-around of ticks, incarnations and lease counters, which the code does not check either.
- Random streams and their seeds, hexadecimal formatting, command-line tools, the member runtime.
- Sampling.Below: the generator is a given list of draws, so that endless rejection is not modelled.
- MembershipDerivation.DeriveMembership: contributions, reasons and digests of admissions are not derived, because nothing else is computed from them.
- StateDerivation.PrepareArtifacts: the conflicts recorded for equivocation and the counters of copies are not computed, because they depend on arrival order.
- StateDerivation.DeriveState: without equivocation conflicts, reasons, counters and digests, which enter no decision.
- Journal.Handle.Open: the mode for reading and writing only.
- Journal.Handle.Append: a write or flush that fails leaves no trace, where the program may leave a part of the record; Storage has such parts at deaths.
- Coordinator.Coordinator.SubmitArtifact: the records `decide_locked` appends in the same call are steps of their own, so that runs allow more orders than the program.
- Coordinator.Coordinator.AdvanceEpoch: the evidence identifier is an argument, where the program hashes federation, epoch and reason; the theorems hold for any identifier.
- Coordinator.LoadJournal: policy, identity, genesis and epoch-state records and payloads that do not decode are left out, because the coordinator writes none.
- EndToEnd.GrantedLeaseIsHonoured: speaks of the policy the question is put under; how that relates to the policy in force is ConfiguredPolicy.LeasesAreRequiredIff.
- Guarantees.GrantsRestOnLiveLeases: speaks of leases the configured policy requires; for those the policy in force requires the exact condition is ConfiguredPolicy.LeasesAreRequiredIff.
- Restarts.LeasesCoverOnlyHeldGrants: bounds the lifetime by the configured policy; for the policy in force the exact condition is ConfiguredPolicy.LifetimesAreBoundedIff.
- Storage.DiskRunsAreRuns: runs of fewer steps than sequence numbers of 64 bits; what happens at the last sequence number is in Journal.Handle.Append.
- State.LedgerDropsNothing: states it within the ledger bound, which every run of the coordinator keeps.
