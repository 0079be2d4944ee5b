// The established-membership fixpoint of src/state.cpp: rounds that start from
// nobody and admit whoever the previous round's members vouch for.
module Standing {
  import opened Sequences
  import opened Policies
  import opened Identities
  import opened Evidence
  import opened Membership
  import opened MembershipDerivation

  const MAX_ROUNDS: nat := MAX_MEMBERS + 2

  /** What standing is a function of: the accepted artefacts, the members they
      mention, the effective policy and the founder, if there is exactly one. */
  datatype World = World(accepted: seq<Artifact>, members: seq<Id>, policy: Policy, founder: Option<Declaration>)

  /** The artefacts whose subject is the member; the nil subject names nobody. */
  function About(accepted: seq<Artifact>, member: Id): seq<Artifact> {
    Filter(accepted, (a: Artifact) => a.subject == member && a.subject != NIL)
  }

  ghost predicate Stands(w: World, member: Id, established: set<Id>) {
    member in w.members &&
    Membership.Standing(member, About(w.accepted, member), w.policy, w.founder, established)
  }

  ghost function Round(w: World, established: set<Id>): (r: set<Id>)
    ensures forall m :: m in r <==> Stands(w, m, established)
  {
    set m | m in w.members && Stands(w, m, established)
  }

  ghost function Rounds(w: World, k: nat): set<Id> {
    if k == 0 then {} else Round(w, Rounds(w, k - 1))
  }

  /** The members the iteration settles on. */
  ghost function Established(w: World): set<Id> {
    Rounds(w, |w.members|)
  }

  // ---- convergence ----------------------------------------------------------

  lemma RoundIsMonotone(w: World, fewer: set<Id>, more: set<Id>)
    requires fewer <= more
    ensures Round(w, fewer) <= Round(w, more)
  {
    forall m | m in Round(w, fewer) ensures m in Round(w, more) {
      assert Stands(w, m, fewer);
      StandingIsMonotone(m, About(w.accepted, m), w.policy, w.founder, fewer, more);
    }
  }

  lemma {:induction false} RoundsIncrease(w: World, j: nat, k: nat)
    requires j <= k
    ensures Rounds(w, j) <= Rounds(w, k)
    decreases k
  {
    hide Stands;
    if 0 < j {
      RoundsIncrease(w, j - 1, k - 1);
      RoundIsMonotone(w, Rounds(w, j - 1), Rounds(w, k - 1));
    }
  }

  lemma {:induction false} RoundsStayStable(w: World, j: nat, k: nat)
    requires j <= k && Rounds(w, j + 1) == Rounds(w, j)
    ensures Rounds(w, k) == Rounds(w, j)
  {
    hide Stands;
    if j < k {
      RoundsStayStable(w, j, k - 1);
    }
  }

  /** Every round that still changes something adds at least one member. */
  lemma {:induction false} UnstableRoundsGrow(w: World, k: nat)
    requires forall j: nat | j < k :: Rounds(w, j + 1) != Rounds(w, j)
    ensures |Rounds(w, k)| >= k
  {
    hide Stands;
    if k > 0 {
      UnstableRoundsGrow(w, k - 1);
      RoundsIncrease(w, k - 1, k);
      assert Rounds(w, (k - 1) + 1) != Rounds(w, k - 1);
      ProperSubsetSize(Rounds(w, k - 1), Rounds(w, k));
    }
  }

  lemma ProperSubsetSize<T>(a: set<T>, b: set<T>)
    requires a <= b && a != b
    ensures |a| < |b|
  {
    var x :| x in b && x !in a;
    SubsetSize(a, b - {x});
  }

  lemma RoundsAreMembers(w: World, k: nat)
    ensures |Rounds(w, k)| <= |w.members|
  {
    hide Stands;
    forall x | x in Rounds(w, k) ensures x in w.members {
      assert Stands(w, x, Rounds(w, k - 1));
    }
    SetWithinSequence(Rounds(w, k), w.members);
  }

  /** The rounds reach a fixpoint within as many steps as there are members. */
  lemma EstablishedIsFixpoint(w: World)
    ensures Round(w, Established(w)) == Established(w)
  {
    hide Stands;
    var n := |w.members|;
    if Rounds(w, n + 1) != Rounds(w, n) {
      forall j: nat | j < n + 1 ensures Rounds(w, j + 1) != Rounds(w, j) {
        if Rounds(w, j + 1) == Rounds(w, j) {
          RoundsStayStable(w, j, n);
          RoundsStayStable(w, j, n + 1);
        }
      }
      UnstableRoundsGrow(w, n + 1);
      RoundsAreMembers(w, n + 1);
    }
  }

  /** It is the least one: any set that admits everybody it vouches for contains it. */
  lemma EstablishedIsLeast(w: World, closed: set<Id>)
    requires Round(w, closed) <= closed
    ensures Established(w) <= closed
  {
    RoundsBelow(w, closed, |w.members|);
  }

  lemma {:induction false} RoundsBelow(w: World, closed: set<Id>, k: nat)
    requires Round(w, closed) <= closed
    ensures Rounds(w, k) <= closed
  {
    hide Stands;
    if k > 0 {
      RoundsBelow(w, closed, k - 1);
      RoundIsMonotone(w, Rounds(w, k - 1), closed);
    }
  }

  lemma RoundsReachEstablished(w: World, k: nat)
    ensures Rounds(w, k) <= Established(w)
  {
    hide Stands;
    EstablishedIsFixpoint(w);
    RoundsBelow(w, Established(w), k);
  }

  // ---- sponsorship ----------------------------------------------------------

  /** The first round a member belongs to. */
  ghost function EntryRound(w: World, member: Id): (k: nat)
    requires member in Established(w)
    ensures 0 < k <= |w.members| && member in Rounds(w, k) && member !in Rounds(w, k - 1)
  {
    hide Stands;
    FirstRoundExists(w, member, |w.members|);
    var k: nat :| 0 < k <= |w.members| && member in Rounds(w, k) && member !in Rounds(w, k - 1);
    k
  }

  lemma {:induction false} FirstRoundExists(w: World, member: Id, k: nat)
    requires member in Rounds(w, k)
    ensures exists r: nat :: 0 < r <= k && member in Rounds(w, r) && member !in Rounds(w, r - 1)
  {
    hide Stands;
    if member in Rounds(w, k - 1) {
      FirstRoundExists(w, member, k - 1);
    }
  }

  ghost function SponsorOf(w: World, member: Id): Option<Id> {
    var operative := Operative(member, About(w.accepted, member));
    if operative.Some? then Some(operative.value.issuer) else None
  }

  /** Whoever is established is the founder without a sponsored proposal, or was
      admitted on evidence whose sponsor and endorsers all entered strictly earlier. */
  lemma EstablishedEvidence(w: World, member: Id) returns (consent: Artifact, parties: set<Id>, endorsers: set<Id>)
    requires member in Established(w)
    ensures SponsorOf(w, member).None? ==> IsFounder(member, w.founder)
    ensures SponsorOf(w, member).Some? ==>
              var about := About(w.accepted, member);
              var p := Operative(member, about).value;
              var earlier := Rounds(w, EntryRound(w, member) - 1);
              && SponsorOf(w, member).value in earlier && SponsorOf(w, member).value != member
              && consent in about && consent.kind == MembershipAcceptance
              && consent.issuer == member && Echoes(consent, p)
              && |parties| >= PartiesRequired(w.policy) >= 2 && NIL !in parties
              && parties <= earlier + {member}
              && |endorsers| >= EndorsementsRequired(w.policy) && endorsers <= earlier
              && member !in endorsers && SponsorOf(w, member).value !in endorsers
              && forall e | e in endorsers :: EndorsedBy(e, about, p)
  {
    hide Operative;
    var about := About(w.accepted, member);
    var earlier := Rounds(w, EntryRound(w, member) - 1);
    assert Stands(w, member, earlier);
    if Operative(member, about).Some? {
      consent, parties, endorsers := AdmissionEvidence(member, about, w.policy, earlier, Operative(member, about).value);
    } else {
      parties, endorsers := {}, {};
      consent :| true;
    }
  }

  /** Nobody is established without exactly one genesis record. */
  lemma NobodyWithoutFounder(w: World)
    requires w.founder.None?
    ensures Established(w) == {}
  {
    hide Stands, Operative;
    forall m | m in Established(w) ensures false {
      var first := EarliestSponsored(w, m);
    }
  }

  /** Follows sponsors back to somebody who has none. */
  lemma {:induction false} EarliestSponsored(w: World, member: Id) returns (root: Id)
    requires member in Established(w)
    ensures root in Established(w) && IsFounder(root, w.founder) && SponsorOf(w, root).None?
    decreases EntryRound(w, member)
  {
    hide Stands, Operative;
    var _, _, _ := EstablishedEvidence(w, member);
    if SponsorOf(w, member).None? {
      root := member;
    } else {
      SponsorEnteredEarlier(w, member);
      root := EarliestSponsored(w, SponsorOf(w, member).value);
    }
  }

  lemma SponsorEnteredEarlier(w: World, member: Id)
    requires member in Established(w) && SponsorOf(w, member).Some?
    ensures var sponsor := SponsorOf(w, member).value;
            sponsor in Established(w) && EntryRound(w, sponsor) < EntryRound(w, member)
  {
    hide Stands;
    var _, _, _ := EstablishedEvidence(w, member);
    var sponsor, k := SponsorOf(w, member).value, EntryRound(w, member);
    RoundsReachEstablished(w, k - 1);
    if EntryRound(w, sponsor) >= k {
      RoundsIncrease(w, k - 1, EntryRound(w, sponsor) - 1);
    }
  }

  /** Each member of the chain was sponsored by the next; the last is the founder,
      who has no sponsored proposal. */
  ghost predicate IsSponsorChain(w: World, chain: seq<Id>) {
    && chain != []
    && (forall i | 0 <= i < |chain| :: chain[i] in Established(w))
    && (forall i | 0 <= i < |chain| - 1 :: SponsorOf(w, chain[i]) == Some(chain[i + 1]))
    && SponsorOf(w, chain[|chain| - 1]).None? && IsFounder(chain[|chain| - 1], w.founder)
    && (forall i, j | 0 <= i < j < |chain| :: EntryRound(w, chain[i]) > EntryRound(w, chain[j]))
  }

  /** Every established member is connected to the founder by sponsors, each of whom
      stood before the one they sponsored; in particular nobody vouches in a circle. */
  lemma {:induction false} SponsorChainToFounder(w: World, member: Id) returns (chain: seq<Id>)
    requires member in Established(w)
    ensures IsSponsorChain(w, chain) && chain[0] == member
    decreases EntryRound(w, member)
  {
    hide Stands, Operative;
    var _, _, _ := EstablishedEvidence(w, member);
    if SponsorOf(w, member).None? {
      chain := [member];
    } else {
      SponsorEnteredEarlier(w, member);
      var rest := SponsorChainToFounder(w, SponsorOf(w, member).value);
      chain := [member] + rest;
      forall i, j | 0 <= i < j < |chain|
        ensures EntryRound(w, chain[i]) > EntryRound(w, chain[j])
      {
        if i == 0 && j > 1 {
          assert EntryRound(w, rest[0]) > EntryRound(w, rest[j - 1]);
        }
      }
    }
  }

  // ---- the loop of src/state.cpp --------------------------------------------

  function Neutral(w: World, epoch: nat, established: set<Id>, compatible: (set<nat>, set<nat>) -> bool): Context {
    Context(epoch, w.policy, Connected, false, established, w.founder, compatible)
  }

  lemma DerivedLifecycle(member: Id, artifacts: seq<Artifact>, ctx: Context)
    ensures Derive(member, artifacts, ctx).lifecycle == LifecycleOf(member, artifacts, ctx)
  {
  }

  /** One round: every member is derived against the previous round's members. */
  method DeriveRound(w: World, byMember: map<Id, seq<Artifact>>, context: Context)
    returns (next: map<Id, Derivation>, nextEstablished: seq<Id>)
    requires context.policy == w.policy && context.founder == w.founder
    requires forall m | m in w.members :: m in byMember && byMember[m] == About(w.accepted, m)
    ensures next.Keys == Elements(w.members)
    ensures forall m | m in w.members :: next[m] == Derive(m, About(w.accepted, m), context)
    ensures StrictlyAscending(nextEstablished)
    ensures Elements(nextEstablished) == Round(w, context.established)
  {
    hide Membership.Standing, LifecycleOf, Derive, About;
    next, nextEstablished := map[], [];
    for i := 0 to |w.members|
      invariant next.Keys == Elements(w.members[..i])
      invariant forall m | m in w.members[..i] :: next[m] == Derive(m, About(w.accepted, m), context)
      invariant forall m :: m in nextEstablished <==> m in w.members[..i] && Stands(w, m, context.established)
    {
      var member := w.members[i];
      var derivation := DeriveMembership(member, byMember[member], context);
      DerivedLifecycle(member, About(w.accepted, member), context);
      EstablishedIffStanding(member, About(w.accepted, member), context);
      assert w.members[..i + 1] == w.members[..i] + [member];
      if derivation.lifecycle == Active || derivation.lifecycle == Degraded || derivation.lifecycle == Admitted {
        nextEstablished := nextEstablished + [member];
      }
      next := next[member := derivation];
    }
    assert w.members[..|w.members|] == w.members;
    nextEstablished := SortUnique(nextEstablished);
  }

  /** src/state.cpp:661-713. The branch that reports a fixpoint not reached within
      the round bound is never taken. */
  method EstablishMembers(w: World, byMember: map<Id, seq<Artifact>>, epoch: nat,
                          compatible: (set<nat>, set<nat>) -> bool)
    returns (active: seq<Id>, derivations: map<Id, Derivation>, converged: bool)
    requires StrictlyAscending(w.members) && |w.members| <= MAX_MEMBERS
    requires forall m | m in w.members :: m in byMember && byMember[m] == About(w.accepted, m)
    ensures converged
    ensures StrictlyAscending(active) && Elements(active) == Established(w)
    ensures derivations.Keys == Elements(w.members)
    ensures forall m | m in w.members ::
              derivations[m] == Derive(m, About(w.accepted, m), Neutral(w, epoch, Established(w), compatible))
  {
    hide Stands, Derive, About;
    active, derivations, converged := [], map[], false;
    for round := 0 to MAX_ROUNDS
      invariant StrictlyAscending(active) && Elements(active) == Rounds(w, round)
      invariant |Rounds(w, round)| >= round
    {
      var context := Neutral(w, epoch, Elements(active), compatible);
      var next, nextEstablished := DeriveRound(w, byMember, context);
      var stable := nextEstablished == active;
      ghost var previous := active;
      active := nextEstablished;
      derivations := next;
      if stable {
        converged := true;
        StableRoundIsEstablished(w, round);
        return;
      }
      if Rounds(w, round + 1) == Rounds(w, round) {
        AscendingUnique(previous, active);
      }
      RoundsIncrease(w, round, round + 1);
      ProperSubsetSize(Rounds(w, round), Rounds(w, round + 1));
    }
    RoundsAreMembers(w, MAX_ROUNDS);
    assert false;
  }

  lemma StableRoundIsEstablished(w: World, k: nat)
    requires Rounds(w, k + 1) == Rounds(w, k)
    ensures Rounds(w, k) == Established(w)
  {
    hide Stands;
    var n := |w.members|;
    if k <= n {
      RoundsStayStable(w, k, n);
    } else {
      EstablishedIsFixpoint(w);
      RoundsStayStable(w, n, k);
    }
  }
}
