// src/partition.cpp, assess_partition: reachability reports become a graph over
// the active members, and the graph's components the partition assessment.
module Partition {
  import opened Sequences
  import opened Identities
  import opened Membership
  import opened Graphs

  datatype Reachability = Reachable | Unreachable | Unobserved
  datatype PeerObservation = PeerObservation(peer: Id, incarnation: nat, state: Reachability, observedAt: nat)
  datatype MemberObservation = MemberObservation(observer: Id, epoch: nat, recordedAt: nat, peers: seq<PeerObservation>)

  /** The inputs of one assessment. `freshness` zero means reports never expire. */
  datatype Survey = Survey(active: seq<Id>, incarnations: seq<nat>, observations: seq<MemberObservation>,
                           epoch: nat, now: nat, freshness: nat)

  datatype Assessment = Assessment(
    state: PartitionState, components: set<set<Id>>, mutuallyReachable: set<Id>,
    unreachable: set<Id>, unobserved: set<Id>, consistent: bool)

  function Members(s: Survey): (r: seq<Id>)
    ensures StrictlyAscending(r)
  {
    SortUnique(s.active)
  }

  // ---- which reports count --------------------------------------------------

  datatype Report = Report(observer: Id, about: PeerObservation)

  predicate UsableObservation(s: Survey, o: MemberObservation) {
    && o.observer != NIL && o.observer in Members(s)
    && o.epoch == s.epoch
    && !(s.freshness != 0 && o.recordedAt > s.now)
  }

  predicate UsablePeer(s: Survey, observer: Id, p: PeerObservation) {
    && p.peer != NIL && p.peer != observer && p.peer in Members(s)
    && !(s.freshness != 0 && (p.observedAt > s.now || s.now - p.observedAt > s.freshness))
  }

  function PeerReports(s: Survey, observer: Id, peers: seq<PeerObservation>): seq<Report> {
    if peers == [] then []
    else
      var last := peers[|peers| - 1];
      PeerReports(s, observer, peers[..|peers| - 1]) +
      (if UsablePeer(s, observer, last) then [Report(observer, last)] else [])
  }

  function Reports(s: Survey, observations: seq<MemberObservation>): seq<Report> {
    if observations == [] then []
    else
      var last := observations[|observations| - 1];
      Reports(s, observations[..|observations| - 1]) +
      (if UsableObservation(s, last) then PeerReports(s, last.observer, last.peers) else [])
  }

  predicate Newer(a: Report, b: Report) {
    a.about.observedAt > b.about.observedAt
  }

  function ReportsOn(reports: seq<Report>, observer: Id, peer: Id): seq<Report> {
    Filter(reports, (r: Report) => r.observer == observer && r.about.peer == peer)
  }

  /** The newest report of one member about another; the first one seen among equals. */
  function Latest(reports: seq<Report>, observer: Id, peer: Id): Option<Report> {
    Pick(ReportsOn(reports, observer, peer), Newer)
  }

  function Usable(s: Survey): seq<Report> {
    Reports(s, s.observations)
  }

  // ---- the graph ------------------------------------------------------------

  predicate WellSized(s: Survey) {
    |Members(s)| == |s.incarnations|
  }

  /** Member `i` last reported reaching member `j` at its current incarnation. */
  predicate Confirms(s: Survey, i: nat, j: nat)
    requires WellSized(s) && i < |Members(s)| && j < |Members(s)|
  {
    var latest := Latest(Usable(s), Members(s)[i], Members(s)[j]);
    && latest.Some?
    && latest.value.about.state == Reachable
    && latest.value.about.incarnation == s.incarnations[j]
  }

  /** An edge needs both ends to confirm each other. The report from the lower to the
      higher member is in addition refused when the incarnation is the unknown one. */
  ghost predicate IsEdge(s: Survey, e: (nat, nat))
    requires WellSized(s)
  {
    && e.0 < e.1 < |Members(s)|
    && Confirms(s, e.0, e.1) && Confirms(s, e.1, e.0)
    && s.incarnations[e.1] != 0
  }

  ghost function Graph(s: Survey): (r: Edges)
    requires WellSized(s)
    ensures forall e :: e in r <==> IsEdge(s, e)
  {
    set i, j | 0 <= i < |Members(s)| && 0 <= j < |Members(s)| && IsEdge(s, (i, j)) :: (i, j)
  }

  ghost function ComponentOf(s: Survey, i: nat): set<Id>
    requires WellSized(s)
  {
    set j | 0 <= j < |Members(s)| && Linked(Graph(s), i, j) :: Members(s)[j]
  }

  ghost function Components(s: Survey): set<set<Id>>
    requires WellSized(s)
  {
    set i | 0 <= i < |Members(s)| :: ComponentOf(s, i)
  }

  predicate Mentions(r: Report, member: Id) {
    r.observer == member || r.about.peer == member
  }

  predicate Covered(reports: seq<Report>, member: Id) {
    exists r | r in reports :: Mentions(r, member)
  }

  ghost predicate HasEdge(s: Survey, i: nat)
    requires WellSized(s)
  {
    exists j: nat :: (i, j) in Graph(s) || (j, i) in Graph(s)
  }

  predicate ReportedUnreachable(reports: seq<Report>, member: Id) {
    exists r | r in reports ::
      r.about.peer == member && Latest(reports, r.observer, member).Some? &&
      Latest(reports, r.observer, member).value.about.state == Unreachable
  }

  /** What an assessment is to say. */
  ghost function AssessmentOf(s: Survey): Assessment {
    var members := Members(s);
    if !WellSized(s) then Assessment(Indeterminate, {}, {}, {}, {}, false)
    else if members == [] then Assessment(Empty, {}, {}, {}, {}, true)
    else if |members| == 1 then
      Assessment(Connected, {Elements(members)}, Elements(members), {}, {}, true)
    else
      var unobserved := set m | m in members && !Covered(Usable(s), m);
      Assessment(
        if unobserved != {} then Indeterminate
        else if |Components(s)| == 1 then Connected else Split,
        Components(s),
        set i | 0 <= i < |members| && HasEdge(s, i) :: members[i],
        set i | 0 <= i < |members| && ReportedUnreachable(Usable(s), members[i]) && !HasEdge(s, i) :: members[i],
        unobserved, true)
  }

  // ---- what it means --------------------------------------------------------

  ghost predicate GraphConnected(s: Survey)
    requires WellSized(s)
  {
    forall i, j | 0 <= i < |Members(s)| && 0 <= j < |Members(s)| :: Linked(Graph(s), i, j)
  }

  lemma ComponentsOfConnectedGraph(s: Survey)
    requires WellSized(s) && Members(s) != []
    ensures |Components(s)| == 1 <==> GraphConnected(s)
  {
    var n := |Members(s)|;
    assert ComponentOf(s, 0) in Components(s);
    if GraphConnected(s) {
      forall i | 0 <= i < n ensures ComponentOf(s, i) == ComponentOf(s, 0) {
      }
      assert Components(s) == {ComponentOf(s, 0)};
    }
    if |Components(s)| == 1 {
      forall i, j | 0 <= i < n && 0 <= j < n ensures Linked(Graph(s), i, j) {
        assert ComponentOf(s, i) in Components(s) && ComponentOf(s, j) in Components(s);
        SameElement(Components(s), ComponentOf(s, i), ComponentOf(s, j));
        LinkedToItself(Graph(s), j);
        assert Members(s)[j] in ComponentOf(s, i);
      }
    }
  }

  lemma SameElement<T>(s: set<T>, a: T, b: T)
    requires |s| == 1 && a in s && b in s
    ensures a == b
  {
    SubsetSize({a, b}, s);
  }

  /** The verdict is Empty without members, Connected exactly when there are some and the
      graph of mutually confirmed edges is connected (no unobserved member can be linked),
      Split when it is not although every member is observed, and Indeterminate when one of
      several is not. */
  lemma ConnectedIffGraphConnected(s: Survey)
    requires WellSized(s)
    ensures AssessmentOf(s).state == Empty <==> Members(s) == []
    ensures AssessmentOf(s).state == Connected <==> Members(s) != [] && GraphConnected(s)
    ensures AssessmentOf(s).state == Split <==>
            !GraphConnected(s) && forall m | m in Members(s) :: Covered(Usable(s), m)
    ensures AssessmentOf(s).state == Indeterminate <==>
            |Members(s)| >= 2 && exists m | m in Members(s) :: !Covered(Usable(s), m)
  {
    if |Members(s)| == 1 {
      LinkedToItself(Graph(s), 0);
    } else if |Members(s)| >= 2 {
      ComponentsOfConnectedGraph(s);
      ObservedOrNot(s);
      if GraphConnected(s) {
        ConnectedIsCovered(s);
      }
    }
  }

  lemma ObservedOrNot(s: Survey)
    ensures (set m | m in Members(s) && !Covered(Usable(s), m)) == {} <==>
            forall m | m in Members(s) :: Covered(Usable(s), m)
  {
    var unobserved := set m | m in Members(s) && !Covered(Usable(s), m);
    if unobserved != {} {
      var m :| m in unobserved;
      assert m in Members(s) && !Covered(Usable(s), m);
    } else {
      assert forall m | m in Members(s) :: m !in unobserved;
    }
  }

  lemma ConnectedIsCovered(s: Survey)
    requires WellSized(s) && |Members(s)| >= 2 && GraphConnected(s)
    ensures forall m | m in Members(s) :: Covered(Usable(s), m)
  {
    forall i | 0 <= i < |Members(s)| ensures Covered(Usable(s), Members(s)[i]) {
      var j := if i == 0 then 1 else 0;
      assert Linked(Graph(s), i, j);
      var p :| IsPath(Graph(s), p, i, j);
      assert Adjacent(Graph(s), p[0], p[0 + 1]);
      var e := if (p[0], p[1]) in Graph(s) then (p[0], p[1]) else (p[1], p[0]);
      assert IsEdge(s, e);
      var r := Latest(Usable(s), Members(s)[e.0], Members(s)[e.1]).value;
      assert r in Usable(s) && Mentions(r, Members(s)[e.0]) && Mentions(r, Members(s)[e.1]);
    }
  }

  /** The components partition the active members along reachability. */
  lemma ComponentsAreClasses(s: Survey, i: nat, j: nat)
    requires WellSized(s) && i < |Members(s)| && j < |Members(s)|
    ensures Members(s)[i] in ComponentOf(s, i)
    ensures Linked(Graph(s), i, j) ==> ComponentOf(s, i) == ComponentOf(s, j)
    ensures !Linked(Graph(s), i, j) ==> ComponentOf(s, i) !! ComponentOf(s, j)
  {
    var g := Graph(s);
    LinkedToItself(g, i);
    var a, b := ComponentOf(s, i), ComponentOf(s, j);
    if Linked(g, i, j) {
      LinkedSymmetric(g, i, j);
      forall k: nat ensures Linked(g, i, k) <==> Linked(g, j, k) {
        if Linked(g, i, k) { LinkedTransitive(g, j, i, k); }
        if Linked(g, j, k) { LinkedTransitive(g, i, j, k); }
      }
      assert a == b;
    } else {
      forall k: nat ensures !(Linked(g, i, k) && Linked(g, j, k)) {
        if Linked(g, i, k) && Linked(g, j, k) {
          LinkedSymmetric(g, j, k);
          LinkedTransitive(g, i, k, j);
        }
      }
      forall k, l | 0 <= k < |Members(s)| && 0 <= l < |Members(s)| && Linked(g, i, k) && Linked(g, j, l)
        ensures Members(s)[k] != Members(s)[l]
      {
        assert k != l;
      }
    }
  }

  /** An edge is exactly mutual confirmation, in whichever order the ends are named,
      except that the higher end must not run at the unknown incarnation. */
  lemma EdgesAreMutualConfirmation(s: Survey, i: nat, j: nat)
    requires WellSized(s) && i < |Members(s)| && j < |Members(s)| && i != j
    ensures Adjacent(Graph(s), i, j) <==>
            Confirms(s, i, j) && Confirms(s, j, i) && s.incarnations[if i < j then j else i] != 0
    ensures (forall k | 0 <= k < |s.incarnations| :: s.incarnations[k] != 0) ==>
              (Adjacent(Graph(s), i, j) <==> Confirms(s, i, j) && Confirms(s, j, i))
  {
  }

  /** The unknown incarnation matters in one direction only: two members that confirm
      each other are joined unless the higher one runs at incarnation zero. */
  lemma ZeroIncarnationIsAsymmetric(s: Survey, i: nat, j: nat)
    requires WellSized(s) && i < j < |Members(s)|
    requires Confirms(s, i, j) && Confirms(s, j, i)
    ensures Adjacent(Graph(s), i, j) <==> s.incarnations[j] != 0
  {
  }

  // ---- two members ----------------------------------------------------------

  /** Two members that have both been reported on are connected when they confirm each
      other and the higher one does not run at incarnation zero, and split otherwise. */
  lemma ConfirmedPair(s: Survey, a: Id, b: Id)
    requires WellSized(s) && Members(s) == [a, b] && Covered(Usable(s), a) && Covered(Usable(s), b)
    ensures AssessmentOf(s).state ==
            if Confirms(s, 0, 1) && Confirms(s, 1, 0) && s.incarnations[1] != 0 then Connected else Split
  {
    hide AssessmentOf, Usable, Confirms, Latest, Covered;
    ConnectedIffGraphConnected(s);
    EdgesAreMutualConfirmation(s, 0, 1);
    var g := Graph(s);
    LinkedToItself(g, 0);
    LinkedToItself(g, 1);
    if Adjacent(g, 0, 1) {
      AdjacentIsLinked(g, 0, 1);
      AdjacentIsLinked(g, 1, 0);
      assert GraphConnected(s);
    } else {
      assert g == {};
      NothingLinked(0, 1);
      assert !Linked(g, 0, 1);
    }
    assert forall m | m in Members(s) :: m == a || m == b;
  }

  lemma NothingLinked(i: nat, j: nat)
    requires i != j
    ensures !Linked({}, i, j)
  {
    forall p: seq<nat> ensures !IsPath({}, p, i, j) {
      if |p| > 1 {
        assert !Adjacent({}, p[0], p[0 + 1]);
      }
    }
  }

  /** Two members, each with one report about the other. */
  predicate EachReports(s: Survey, a: Id, b: Id, pa: PeerObservation, pb: PeerObservation) {
    && |s.observations| == 2 && s.active == [a, b] && 0 < a < b && pa.peer == b && pb.peer == a
    && s.observations[0].observer == a && s.observations[0].peers == [pa]
    && s.observations[1].observer == b && s.observations[1].peers == [pb]
    && s.observations[0].epoch == s.observations[1].epoch == s.epoch
  }

  predicate FreshReport(s: Survey, o: MemberObservation, p: PeerObservation) {
    s.freshness == 0 || (o.recordedAt <= s.now && p.observedAt <= s.now && s.now - p.observedAt <= s.freshness)
  }

  lemma PairMembers(s: Survey, a: Id, b: Id)
    requires s.active == [a, b] && a < b
    ensures Members(s) == [a, b]
  {
    AscendingUnique(Members(s), [a, b]);
  }

  lemma OnePeer(s: Survey, observer: Id, p: PeerObservation)
    ensures PeerReports(s, observer, [p]) == if UsablePeer(s, observer, p) then [Report(observer, p)] else []
  {
    assert PeerReports(s, observer, [p][..0]) == [];
  }

  lemma TwoObservations(s: Survey, o: MemberObservation, q: MemberObservation)
    ensures Reports(s, [o, q]) ==
            (if UsableObservation(s, o) then PeerReports(s, o.observer, o.peers) else []) +
            (if UsableObservation(s, q) then PeerReports(s, q.observer, q.peers) else [])
  {
    hide PeerReports, UsableObservation;
    assert [o, q][..1] == [o] && [o][..0] == [];
    assert Reports(s, []) == [];
  }

  lemma PairReports(s: Survey, a: Id, b: Id, pa: PeerObservation, pb: PeerObservation)
    requires EachReports(s, a, b, pa, pb)
    ensures Members(s) == [a, b]
    ensures Usable(s) == (if FreshReport(s, s.observations[0], pa) then [Report(a, pa)] else []) +
                         (if FreshReport(s, s.observations[1], pb) then [Report(b, pb)] else [])
  {
    hide Reports, PeerReports, Members;
    PairMembers(s, a, b);
    OnePeer(s, a, pa);
    OnePeer(s, b, pb);
    TwoObservations(s, s.observations[0], s.observations[1]);
    assert s.observations == [s.observations[0], s.observations[1]];
  }

  lemma LatestOfPair(a: Id, b: Id, pa: PeerObservation, pb: PeerObservation)
    requires a != b && pa.peer == b && pb.peer == a
    ensures Latest([Report(a, pa), Report(b, pb)], a, b) == Some(Report(a, pa))
    ensures Latest([Report(a, pa), Report(b, pb)], b, a) == Some(Report(b, pb))
  {
    hide Latest;
    LatestOfTwo(Report(a, pa), Report(b, pb), a, b);
    LatestOfTwo(Report(a, pa), Report(b, pb), b, a);
  }

  lemma LatestOfTwo(r: Report, q: Report, observer: Id, peer: Id)
    requires (r.observer == observer && r.about.peer == peer) != (q.observer == observer && q.about.peer == peer)
    ensures Latest([r, q], observer, peer) == Some(if r.observer == observer && r.about.peer == peer then r else q)
  {
    NothingLatest(observer, peer);
    hide Latest;
    LatestStep([], r, observer, peer);
    LatestStep([r], q, observer, peer);
    assert [] + [r] == [r] && [r] + [q] == [r, q];
  }

  lemma NothingLatest(observer: Id, peer: Id)
    ensures Latest([], observer, peer).None?
  {
  }

  /** What two members with one report each amount to. While both reports are fresh they
      are connected exactly if each reports reaching the other at its current incarnation
      and the higher one does not run at incarnation zero, and split otherwise; when neither
      is fresh they are indeterminate. */
  lemma PairAssessed(s: Survey, a: Id, b: Id, pa: PeerObservation, pb: PeerObservation)
    requires EachReports(s, a, b, pa, pb) && |s.incarnations| == 2
    ensures FreshReport(s, s.observations[0], pa) && FreshReport(s, s.observations[1], pb) ==>
              AssessmentOf(s).state ==
              if pa.state == Reachable && pb.state == Reachable && pa.incarnation == s.incarnations[1] &&
                 pb.incarnation == s.incarnations[0] && s.incarnations[1] != 0
              then Connected else Split
    ensures !FreshReport(s, s.observations[0], pa) && !FreshReport(s, s.observations[1], pb) ==>
              AssessmentOf(s).state == Indeterminate
  {
    hide AssessmentOf, Usable, Latest, Members, FreshReport;
    PairReports(s, a, b, pa, pb);
    if FreshReport(s, s.observations[0], pa) && FreshReport(s, s.observations[1], pb) {
      LatestOfPair(a, b, pa, pb);
      assert Usable(s) == [Report(a, pa), Report(b, pb)];
      assert Mentions(Usable(s)[0], a) && Mentions(Usable(s)[0], b);
      ConfirmedPair(s, a, b);
    } else if !FreshReport(s, s.observations[0], pa) && !FreshReport(s, s.observations[1], pb) {
      ConnectedIffGraphConnected(s);
      assert Usable(s) == [] && a in Members(s) && !Covered(Usable(s), a);
    }
  }

  function PairAt(p: nat, q: nat): Survey {
    Survey([1, 2], [p, q],
           [MemberObservation(1, 1, 1, [PeerObservation(2, q, Reachable, 1)]),
            MemberObservation(2, 1, 1, [PeerObservation(1, p, Reachable, 1)])], 1, 1, 0)
  }

  /** The same two members confirm each other at the same two incarnations, one of them
      unknown: connected when the lower one is at zero, split when the higher one is. */
  lemma ZeroIncarnationSplitsOneWay()
    ensures AssessmentOf(PairAt(0, 5)).state == Connected && AssessmentOf(PairAt(5, 0)).state == Split
  {
    PairAssessed(PairAt(0, 5), 1, 2, PeerObservation(2, 5, Reachable, 1), PeerObservation(1, 0, Reachable, 1));
    PairAssessed(PairAt(5, 0), 1, 2, PeerObservation(2, 0, Reachable, 1), PeerObservation(1, 5, Reachable, 1));
    hide AssessmentOf;
  }

  lemma NewerIsAnOrder()
    ensures StrictWeakOrder(Newer)
  {
  }

  /** The report relied on is usable, newest, and the first of its age: it stands at a
      position `k` among the reports of the pair, in the order they were seen, that none
      of the later ones is newer than and all of the earlier ones are older than. */
  lemma LatestReportIsNewest(s: Survey, observer: Id, peer: Id) returns (k: nat)
    requires Latest(Usable(s), observer, peer).Some?
    ensures var r := Latest(Usable(s), observer, peer).value;
            var seen := ReportsOn(Usable(s), observer, peer);
            && r.observer == observer && r.about.peer == peer && r in Usable(s)
            && (forall q | q in Usable(s) && q.observer == observer && q.about.peer == peer ::
                  q.about.observedAt <= r.about.observedAt)
            && k < |seen| && seen[k] == r
            && forall j | 0 <= j < k :: seen[j].about.observedAt < r.about.observedAt
  {
    NewerIsAnOrder();
    PickIsMaximal(ReportsOn(Usable(s), observer, peer), Newer);
    k := PickIsFirstMaximum(ReportsOn(Usable(s), observer, peer), Newer);
  }

  lemma {:induction false} ReportsAreUsable(s: Survey, observations: seq<MemberObservation>)
    ensures forall r | r in Reports(s, observations) ::
              && UsablePeer(s, r.observer, r.about)
              && exists o | o in observations :: UsableObservation(s, o) && o.observer == r.observer && r.about in o.peers
  {
    if observations != [] {
      var front, last := observations[..|observations| - 1], observations[|observations| - 1];
      ReportsAreUsable(s, front);
      PeerReportsAreUsable(s, last.observer, last.peers);
      assert observations == front + [last];
    }
  }

  lemma {:induction false} PeerReportsAreUsable(s: Survey, observer: Id, peers: seq<PeerObservation>)
    ensures forall r | r in PeerReports(s, observer, peers) ::
              r.observer == observer && r.about in peers && UsablePeer(s, observer, r.about)
  {
    if peers != [] {
      PeerReportsAreUsable(s, observer, peers[..|peers| - 1]);
      assert peers == peers[..|peers| - 1] + [peers[|peers| - 1]];
    }
  }

  // ---- the assessment -------------------------------------------------------

  /** The reports tabulated so far: the latest one for each pair that has any. */
  ghost predicate Tabulates(table: map<(Id, Id), PeerObservation>, reports: seq<Report>) {
    forall observer: Id, peer: Id {:trigger Latest(reports, observer, peer)} ::
      var latest := Latest(reports, observer, peer);
      && ((observer, peer) in table <==> latest.Some?)
      && (latest.Some? ==> latest.value == Report(observer, table[(observer, peer)]))
  }

  lemma LatestStep(reports: seq<Report>, r: Report, observer: Id, peer: Id)
    ensures Latest(reports + [r], observer, peer) ==
            var latest := Latest(reports, observer, peer);
            if r.observer == observer && r.about.peer == peer && (latest.None? || Newer(r, latest.value))
            then Some(r) else latest
  {
    var all := reports + [r];
    assert all[..|reports|] == reports;
    var before, after := ReportsOn(reports, observer, peer), ReportsOn(all, observer, peer);
    if r.observer == observer && r.about.peer == peer {
      assert after == before + [r] && after[..|before|] == before;
    } else {
      assert after == before;
    }
  }

  lemma NothingTabulated()
    ensures Tabulates(map[], [])
  {
  }

  lemma PeerReportsStep(s: Survey, observer: Id, peers: seq<PeerObservation>, j: nat)
    requires j < |peers|
    ensures PeerReports(s, observer, peers[..j + 1]) ==
            PeerReports(s, observer, peers[..j]) + (if UsablePeer(s, observer, peers[j]) then [Report(observer, peers[j])] else [])
  {
    assert peers[..j + 1][..j] == peers[..j];
  }

  lemma ReportsStep(s: Survey, observations: seq<MemberObservation>, i: nat)
    requires i < |observations|
    ensures var o := observations[i];
            Reports(s, observations[..i + 1]) ==
            Reports(s, observations[..i]) + (if UsableObservation(s, o) then PeerReports(s, o.observer, o.peers) else [])
  {
    assert observations[..i + 1][..i] == observations[..i];
  }

  /** src/partition.cpp:252-289: the latest usable observation per pair. */
  method Tabulate(s: Survey) returns (table: map<(Id, Id), PeerObservation>)
    ensures Tabulates(table, Usable(s))
  {
    hide Tabulates, Reports, PeerReports;
    var members := SortUnique(s.active);
    table := map[];
    NothingTabulated();
    NothingReported(s);
    assert s.observations[..0] == [];
    for i := 0 to |s.observations|
      invariant Tabulates(table, Reports(s, s.observations[..i]))
    {
      var observation := s.observations[i];
      ReportsStep(s, s.observations, i);
      assert Reports(s, s.observations[..i]) + [] == Reports(s, s.observations[..i]);
      if observation.observer == NIL || observation.observer !in members {
        continue;
      }
      if observation.epoch != s.epoch {
        continue;
      }
      if s.freshness != 0 && observation.recordedAt > s.now {
        continue;
      }
      table := EnterObservation(s, members, observation, table, Reports(s, s.observations[..i]));
    }
    assert s.observations[..|s.observations|] == s.observations;
    UsableReports(s);
  }

  lemma UsableReports(s: Survey)
    ensures Usable(s) == Reports(s, s.observations)
  {
  }

  lemma NothingReported(s: Survey)
    ensures Reports(s, []) == [] && forall observer: Id :: PeerReports(s, observer, []) == []
  {
  }

  /** The peers of one usable observation. */
  method EnterObservation(s: Survey, members: seq<Id>, observation: MemberObservation,
                          before: map<(Id, Id), PeerObservation>, ghost reports: seq<Report>)
    returns (table: map<(Id, Id), PeerObservation>)
    requires Tabulates(before, reports) && members == SortUnique(s.active)
    requires observation.observer != NIL
    ensures Tabulates(table, reports + PeerReports(s, observation.observer, observation.peers))
  {
    hide Tabulates, PeerReports;
    var observer, peers := observation.observer, observation.peers;
    table := before;
    NothingReported(s);
    assert peers[..0] == [] && reports + [] == reports;
    for j := 0 to |peers|
      invariant Tabulates(table, reports + PeerReports(s, observer, peers[..j]))
    {
      var peer := peers[j];
      ghost var sofar := PeerReports(s, observer, peers[..j]);
      PeerReportsStep(s, observer, peers, j);
      assert sofar + [] == sofar;
      if peer.peer == NIL || peer.peer == observer {
        continue;
      }
      if peer.peer !in members {
        continue;
      }
      if s.freshness != 0 {
        if peer.observedAt > s.now || s.now - peer.observedAt > s.freshness {
          continue;
        }
      }
      ghost var report := Report(observer, peer);
      assert reports + (sofar + [report]) == (reports + sofar) + [report];
      table := Enter(table, (observer, peer.peer), peer, reports + sofar, report);
    }
    assert peers[..|peers|] == peers;
  }

  method Enter(table: map<(Id, Id), PeerObservation>, key: (Id, Id), peer: PeerObservation,
               ghost reports: seq<Report>, ghost report: Report)
    returns (updated: map<(Id, Id), PeerObservation>)
    requires Tabulates(table, reports)
    requires report == Report(key.0, peer) && key.1 == peer.peer
    ensures Tabulates(updated, reports + [report])
  {
    hide Latest;
    forall observer: Id, other: Id {:trigger Latest(reports + [report], observer, other)} {
      LatestStep(reports, report, observer, other);
    }
    updated := table;
    assert Latest(reports, key.0, key.1).Some? <==> key in table;
    if key !in table || table[key].observedAt < peer.observedAt {
      updated := table[key := peer];
    }
  }
}
