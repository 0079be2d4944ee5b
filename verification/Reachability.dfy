// What the partition assessment says in terms of the reports themselves: which reports
// count, which of them is relied on, and what every part of the verdict follows from.
module Reachability {
  import opened Sequences
  import opened Policies
  import opened Identities
  import opened Membership
  import opened Graphs
  import opened Partition
  import Standing
  import opened State

  // ---- which reports count --------------------------------------------------

  /** A report within an observation counts: both ends are different active members, the
      observation is of this epoch, and, unless reports never expire, neither lies in the
      future and the report is no older than allowed. */
  predicate Counts(s: Survey, o: MemberObservation, p: PeerObservation) {
    && o.observer in s.active && p.peer in s.active
    && o.observer != NIL && p.peer != NIL && o.observer != p.peer
    && o.epoch == s.epoch
    && (s.freshness != 0 ==>
          o.recordedAt <= s.now && p.observedAt <= s.now && s.now <= p.observedAt + s.freshness)
  }

  lemma {:induction false} PeersCount(s: Survey, o: MemberObservation, peers: seq<PeerObservation>, p: PeerObservation)
    requires UsableObservation(s, o)
    ensures Report(o.observer, p) in PeerReports(s, o.observer, peers) <==> p in peers && Counts(s, o, p)
  {
    if peers != [] {
      PeersCount(s, o, peers[..|peers| - 1], p);
      assert peers == peers[..|peers| - 1] + [peers[|peers| - 1]];
    }
  }

  lemma CountingIsUsable(s: Survey, o: MemberObservation, p: PeerObservation)
    requires Counts(s, o, p)
    ensures UsableObservation(s, o)
  {
  }

  ghost predicate Reported(s: Survey, observations: seq<MemberObservation>, r: Report) {
    exists o | o in observations :: o.observer == r.observer && r.about in o.peers && Counts(s, o, r.about)
  }

  lemma ReportedOneMore(s: Survey, front: seq<MemberObservation>, last: MemberObservation, r: Report)
    ensures Reported(s, front + [last], r) <==>
            Reported(s, front, r) || (last.observer == r.observer && r.about in last.peers && Counts(s, last, r.about))
  {
    hide Counts;
    assert last in front + [last];
  }

  lemma {:induction false} ReportsExactly(s: Survey, observations: seq<MemberObservation>, r: Report)
    ensures r in Reports(s, observations) <==> Reported(s, observations, r)
  {
    hide PeerReports, UsableObservation, Counts;
    if observations != [] {
      var front, last := observations[..|observations| - 1], observations[|observations| - 1];
      ReportsExactly(s, front, r);
      assert observations == front + [last];
      ReportedOneMore(s, front, last, r);
      PeerReportsAreUsable(s, last.observer, last.peers);
      if last.observer == r.observer && Counts(s, last, r.about) {
        CountingIsUsable(s, last, r.about);
      }
      if UsableObservation(s, last) && last.observer == r.observer {
        assert r == Report(last.observer, r.about);
        PeersCount(s, last, last.peers, r.about);
      }
    }
  }

  /** A report is used if and only if some observation contains it and it counts there. */
  lemma UsableExactly(s: Survey, r: Report)
    ensures r in Usable(s) <==>
            exists o | o in s.observations :: o.observer == r.observer && r.about in o.peers && Counts(s, o, r.about)
  {
    ReportsExactly(s, s.observations, r);
    hide Counts, Reports;
  }

  // ---- which report is relied on --------------------------------------------

  predicate OfPair(r: Report, observer: Id, peer: Id) {
    r.observer == observer && r.about.peer == peer
  }

  /** The report at position `k` is the newest of one member about another, and the first
      of its age. */
  ghost predicate NewestAt(reports: seq<Report>, k: int, observer: Id, peer: Id)
    requires 0 <= k < |reports|
  {
    && OfPair(reports[k], observer, peer)
    && (forall j | 0 <= j < |reports| && OfPair(reports[j], observer, peer) ::
          reports[j].about.observedAt <= reports[k].about.observedAt)
    && (forall j | 0 <= j < k && OfPair(reports[j], observer, peer) ::
          reports[j].about.observedAt < reports[k].about.observedAt)
  }

  lemma {:induction false} LatestStands(reports: seq<Report>, observer: Id, peer: Id) returns (k: nat)
    ensures Latest(reports, observer, peer).Some? ==>
              && k < |reports| && NewestAt(reports, k, observer, peer)
              && Latest(reports, observer, peer) == Some(reports[k])
    ensures Latest(reports, observer, peer).None? ==>
              forall j | 0 <= j < |reports| :: !OfPair(reports[j], observer, peer)
  {
    hide Latest;
    k := 0;
    if reports == [] {
      NothingLatest(observer, peer);
    } else {
      var front, r := reports[..|reports| - 1], reports[|reports| - 1];
      assert reports == front + [r];
      k := LatestStands(front, observer, peer);
      LatestStep(front, r, observer, peer);
      if Latest(reports, observer, peer) != Latest(front, observer, peer) {
        k := |front|;
      }
    }
  }

  /** The report relied on is the newest one, the first among equals: there is one if and
      only if the pair has any, and it is literally that report. */
  lemma LatestExactly(reports: seq<Report>, observer: Id, peer: Id, r: Report)
    ensures Latest(reports, observer, peer) == Some(r) <==>
            exists k | 0 <= k < |reports| :: NewestAt(reports, k, observer, peer) && reports[k] == r
  {
    hide Latest;
    var first := LatestStands(reports, observer, peer);
    forall k | 0 <= k < |reports| && NewestAt(reports, k, observer, peer)
      ensures Latest(reports, observer, peer) == Some(reports[k]) {
      assert OfPair(reports[k], observer, peer);
      assert first == k;
    }
  }

  // ---- the verdict ----------------------------------------------------------

  /** The newest report of member `i` about member `j` says that it reaches it, at the
      incarnation `j` runs at. */
  ghost predicate Reaches(s: Survey, i: nat, j: nat)
    requires WellSized(s) && i < |Members(s)| && j < |Members(s)|
  {
    exists k | 0 <= k < |Usable(s)| ::
      && NewestAt(Usable(s), k, Members(s)[i], Members(s)[j])
      && Usable(s)[k].about.state == Reachable && Usable(s)[k].about.incarnation == s.incarnations[j]
  }

  lemma ConfirmsExactly(s: Survey, i: nat, j: nat)
    requires WellSized(s) && i < |Members(s)| && j < |Members(s)|
    ensures Confirms(s, i, j) <==> Reaches(s, i, j)
  {
    hide Latest, Usable, Members, NewestAt;
    var a, b := Members(s)[i], Members(s)[j];
    if Confirms(s, i, j) {
      LatestExactly(Usable(s), a, b, Latest(Usable(s), a, b).value);
    }
    if k :| 0 <= k < |Usable(s)| && NewestAt(Usable(s), k, a, b) && Usable(s)[k].about.state == Reachable &&
            Usable(s)[k].about.incarnation == s.incarnations[j] {
      LatestExactly(Usable(s), a, b, Usable(s)[k]);
    }
  }

  /** Two members are joined if and only if each one's newest usable report about the other
      says that it is reachable at its current incarnation, and the higher one of them does
      not run at incarnation zero. A report of the contrary in either direction, or none,
      keeps them apart. */
  lemma JoinedExactly(s: Survey, i: nat, j: nat)
    requires WellSized(s) && i < |Members(s)| && j < |Members(s)| && i != j
    ensures Adjacent(Graph(s), i, j) <==>
            Reaches(s, i, j) && Reaches(s, j, i) && s.incarnations[if i < j then j else i] != 0
  {
    hide Confirms, Reaches, Members;
    EdgesAreMutualConfirmation(s, i, j);
    ConfirmsExactly(s, i, j);
    ConfirmsExactly(s, j, i);
  }

  ghost predicate CalledUnreachable(s: Survey, member: Id) {
    exists observer: Id, k | 0 <= k < |Usable(s)| ::
      NewestAt(Usable(s), k, observer, member) && Usable(s)[k].about.state == Unreachable
  }

  lemma CalledExactly(s: Survey, member: Id)
    ensures ReportedUnreachable(Usable(s), member) <==> CalledUnreachable(s, member)
  {
    hide Latest, Usable, NewestAt;
    var reports := Usable(s);
    if r :| r in reports && r.about.peer == member && Latest(reports, r.observer, member).Some? &&
            Latest(reports, r.observer, member).value.about.state == Unreachable {
      LatestExactly(reports, r.observer, member, Latest(reports, r.observer, member).value);
    }
    if observer: Id, k :| 0 <= k < |reports| && NewestAt(reports, k, observer, member) && reports[k].about.state == Unreachable {
      LatestExactly(reports, observer, member, reports[k]);
      InPair(reports, k, observer, member);
    }
  }

  lemma InPair(reports: seq<Report>, k: int, observer: Id, peer: Id)
    requires 0 <= k < |reports| && NewestAt(reports, k, observer, peer)
    ensures reports[k].observer == observer && reports[k].about.peer == peer
  {
  }

  lemma JoinedHasEdge(s: Survey, i: nat)
    requires WellSized(s) && i < |Members(s)|
    ensures HasEdge(s, i) <==> exists j | 0 <= j < |Members(s)| :: j != i && Adjacent(Graph(s), i, j)
  {
    hide Confirms;
    if j: nat :| (i, j) in Graph(s) || (j, i) in Graph(s) {
      assert j < |Members(s)| && j != i && Adjacent(Graph(s), i, j);
    }
  }

  /** Among several members: mutually reachable are exactly those joined to somebody,
      unreachable exactly those that are joined to nobody and that somebody's newest report
      calls unreachable, and unobserved exactly those no usable report mentions. */
  lemma MembersAreSortedOut(s: Survey, i: nat)
    requires WellSized(s) && |Members(s)| >= 2 && i < |Members(s)|
    ensures var joined := exists j | 0 <= j < |Members(s)| :: j != i && Adjacent(Graph(s), i, j);
            && (Members(s)[i] in AssessmentOf(s).mutuallyReachable <==> joined)
            && (Members(s)[i] in AssessmentOf(s).unreachable <==> !joined && CalledUnreachable(s, Members(s)[i]))
            && (Members(s)[i] in AssessmentOf(s).unobserved <==>
                forall r | r in Usable(s) :: r.observer != Members(s)[i] && r.about.peer != Members(s)[i])
  {
    hide Adjacent, Graph, ReportedUnreachable, CalledUnreachable, Usable, HasEdge, Components;
    JoinedHasEdge(s, i);
    CalledExactly(s, Members(s)[i]);
    assert forall k | 0 <= k < |Members(s)| && Members(s)[k] == Members(s)[i] :: k == i;
  }

  /** One report of the contrary is enough: while member 1 reports reaching member 2, and
      member 2 does not report reaching member 1, the two are split. */
  lemma OneWayIsSplit()
    ensures var s := Survey([1, 2], [4, 5],
                            [MemberObservation(1, 1, 1, [PeerObservation(2, 5, Reachable, 1)]),
                             MemberObservation(2, 1, 1, [PeerObservation(1, 4, Unreachable, 1)])], 1, 1, 0);
            AssessmentOf(s).state == Split
  {
    var s := Survey([1, 2], [4, 5],
                    [MemberObservation(1, 1, 1, [PeerObservation(2, 5, Reachable, 1)]),
                     MemberObservation(2, 1, 1, [PeerObservation(1, 4, Unreachable, 1)])], 1, 1, 0);
    PairAssessed(s, 1, 2, PeerObservation(2, 5, Reachable, 1), PeerObservation(1, 4, Unreachable, 1));
    hide AssessmentOf;
  }

  // ---- in a derived state ---------------------------------------------------

  ghost predicate CountsIn(i: Inputs, o: MemberObservation, p: PeerObservation) {
    var limit, now := FreshnessTicks(WorldOf(i).policy), ClockOf(Accepted(i), i.logicalTime);
    && o.observer in Standing.Established(WorldOf(i)) && p.peer in Standing.Established(WorldOf(i))
    && o.observer != NIL && p.peer != NIL && o.observer != p.peer
    && o.epoch == EpochOf(Accepted(i))
    && (limit != 0 ==> o.recordedAt <= now && p.observedAt <= now && now <= p.observedAt + limit)
  }

  ghost function SurveyOf(i: Inputs): Survey {
    Survey(ActiveMembers(i), Incarnations(i, ActiveMembers(i)), i.observations, EpochOf(Accepted(i)),
           ClockOf(Accepted(i), i.logicalTime), FreshnessTicks(WorldOf(i).policy))
  }

  /** The partition of a derived state is the assessment of its established members, at the
      incarnations of their current identities, over the observations given: those count
      that are of the state's epoch and fresh at the state's time under the policy in
      force. */
  lemma PartitionOfState(i: Inputs)
    ensures var s := SurveyOf(i);
            && PartitionOf(i) == AssessmentOf(s) && WellSized(s) && s.observations == i.observations
            && (forall m :: m in Members(s) <==> m in Standing.Established(WorldOf(i)))
            && (forall k | 0 <= k < |Members(s)| ::
                  s.incarnations[k] == DerivationOf(i, Members(s)[k]).currentIdentity.incarnation)
            && (forall o, p :: Counts(s, o, p) <==> CountsIn(i, o, p))
  {
    EstablishedAreMembers(i);
    SurveyMembers(i);
    SurveyCounts(i);
    hide *;
    PartitionIsSurvey(i);
  }

  lemma PartitionIsSurvey(i: Inputs)
    ensures PartitionOf(i) == AssessmentOf(SurveyOf(i)) && SurveyOf(i).observations == i.observations
  {
    hide AssessmentOf, ActiveMembers, Incarnations, Accepted, EpochOf, ClockOf, WorldOf;
  }

  lemma SurveyMembers(i: Inputs)
    ensures WellSized(SurveyOf(i)) && Members(SurveyOf(i)) == ActiveMembers(i)
    ensures forall k | 0 <= k < |Members(SurveyOf(i))| ::
              SurveyOf(i).incarnations[k] == DerivationOf(i, Members(SurveyOf(i))[k]).currentIdentity.incarnation
  {
    var active := ActiveMembers(i);
    AscendingUnique(Members(SurveyOf(i)), active);
    forall k | 0 <= k < |active|
      ensures Incarnations(i, active)[k] == DerivationOf(i, active[k]).currentIdentity.incarnation
    {
      SameIdentity(i, active[k]);
    }
    hide WorldOf, Accepted, EpochOf, ClockOf, DerivationOf, StandingDerivation, ActiveMembers, Members;
  }

  lemma SurveyCounts(i: Inputs)
    ensures forall o, p :: Counts(SurveyOf(i), o, p) <==> CountsIn(i, o, p)
  {
    EstablishedAreMembers(i);
    hide WorldOf, Accepted, EpochOf, ClockOf, ActiveMembers, Standing.Established, FreshnessTicks, Incarnations;
  }

  lemma EstablishedAreMembers(i: Inputs)
    ensures forall m :: m in ActiveMembers(i) <==> m in Standing.Established(WorldOf(i))
  {
    Standing.EstablishedIsFixpoint(WorldOf(i));
    hide WorldOf, Standing.Established, Membership.Standing;
    assert forall m | m in Standing.Established(WorldOf(i)) :: Standing.Stands(WorldOf(i), m, Standing.Established(WorldOf(i)));
  }

  lemma SameIdentity(i: Inputs, member: Id)
    ensures DerivationOf(i, member).currentIdentity == StandingDerivation(i, member).currentIdentity
  {
    hide Accepted, EffectivePolicy, MemberOrder, Founder, Standing.About, CurrentIdentity, PartitionOf, IsReconciling,
         LifecycleOf, AdmissionValid, Standing.Established;
  }
}
