// src/partition.cpp:245-383: the assessment computed over the union-find.
module PartitionAssessment {
  import opened Sequences
  import opened Identities
  import opened Membership
  import opened Graphs
  import opened DisjointSets
  import opened Partition

  ghost predicate Keyed(members: seq<Id>, table: map<(Id, Id), PeerObservation>) {
    forall key | key in table :: key.0 in members && key.1 in members
  }

  lemma TableIsKeyed(s: Survey, table: map<(Id, Id), PeerObservation>)
    requires Tabulates(table, Usable(s))
    ensures Keyed(Members(s), table)
  {
    ReportsAreUsable(s, s.observations);
    forall key | key in table ensures key.0 in Members(s) && key.1 in Members(s) {
      var r := Latest(Usable(s), key.0, key.1);
      assert r.Some? && r.value in Usable(s);
    }
  }

  predicate Candidate(members: seq<Id>, incarnations: seq<nat>, table: map<(Id, Id), PeerObservation>,
                      i: nat, j: nat)
    requires i < |members| && j < |members| && |incarnations| == |members|
  {
    var key := (members[i], members[j]);
    && key in table && table[key].state == Reachable
    && table[key].incarnation != 0 && table[key].incarnation == incarnations[j]
  }

  ghost predicate Touches(key: (Id, Id), member: Id) {
    key.0 == member || key.1 == member
  }

  ghost predicate ReferencedIn(keys: set<(Id, Id)>, member: Id) {
    exists key | key in keys :: Touches(key, member)
  }

  ghost predicate UnreachableIn(keys: set<(Id, Id)>, table: map<(Id, Id), PeerObservation>, member: Id)
    requires keys <= table.Keys
  {
    exists key | key in keys :: key.1 == member && table[key].state == Unreachable
  }

  lemma ReferencedStep(keys: set<(Id, Id)>, key: (Id, Id), member: Id)
    ensures ReferencedIn(keys + {key}, member) <==> ReferencedIn(keys, member) || Touches(key, member)
  {
    assert key in keys + {key};
  }

  lemma UnreachableStep(keys: set<(Id, Id)>, table: map<(Id, Id), PeerObservation>, key: (Id, Id), member: Id)
    requires keys <= table.Keys && key in table
    ensures UnreachableIn(keys + {key}, table, member) <==>
            UnreachableIn(keys, table, member) || (key.1 == member && table[key].state == Unreachable)
  {
    assert key in keys + {key};
  }

  lemma FlagsStep(members: seq<Id>, table: map<(Id, Id), PeerObservation>, done: set<(Id, Id)>, key: (Id, Id),
                  observer: nat, peer: nat)
    requires StrictlyAscending(members) && observer < |members| && peer < |members|
    requires key == (members[observer], members[peer]) && key in table && done <= table.Keys
    ensures forall i | 0 <= i < |members| ::
              ReferencedIn(done + {key}, members[i]) <==> ReferencedIn(done, members[i]) || i == observer || i == peer
    ensures forall i | 0 <= i < |members| ::
              UnreachableIn(done + {key}, table, members[i]) <==>
              UnreachableIn(done, table, members[i]) || (i == peer && table[key].state == Unreachable)
  {
    forall i | 0 <= i < |members|
      ensures ReferencedIn(done + {key}, members[i]) <==> ReferencedIn(done, members[i]) || i == observer || i == peer
      ensures UnreachableIn(done + {key}, table, members[i]) <==>
              UnreachableIn(done, table, members[i]) || (i == peer && table[key].state == Unreachable)
    {
      ReferencedStep(done, key, members[i]);
      UnreachableStep(done, table, key, members[i]);
    }
  }

  ghost predicate Pairs(pairs: seq<(nat, nat)>, keys: set<(Id, Id)>, members: seq<Id>, incarnations: seq<nat>,
                        table: map<(Id, Id), PeerObservation>)
    requires |incarnations| == |members|
  {
    forall i: nat, j: nat :: (i, j) in pairs <==>
      i < j < |members| && (members[i], members[j]) in keys && Candidate(members, incarnations, table, i, j)
  }

  lemma PairsStep(pairs: seq<(nat, nat)>, keys: set<(Id, Id)>, members: seq<Id>, incarnations: seq<nat>,
                  table: map<(Id, Id), PeerObservation>, key: (Id, Id), a: nat, b: nat)
    requires |incarnations| == |members| && StrictlyAscending(members)
    requires Pairs(pairs, keys, members, incarnations, table)
    requires a < |members| && b < |members| && key == (members[a], members[b])
    ensures Pairs(if a < b && Candidate(members, incarnations, table, a, b) then pairs + [(a, b)] else pairs,
                  keys + {key}, members, incarnations, table)
  {
  }

  /** The body of that pass. */
  method ScanEntry(entry: PeerObservation, incarnation: nat, observer: nat, peer: nat,
                   referenced: array<bool>, seenUnreachable: array<bool>, pairs: seq<(nat, nat)>)
    returns (more: seq<(nat, nat)>)
    requires observer < referenced.Length == seenUnreachable.Length && peer < referenced.Length
    requires referenced != seenUnreachable
    modifies referenced, seenUnreachable
    ensures forall i | 0 <= i < referenced.Length ::
              referenced[i] <==> old(referenced[i]) || i == observer || i == peer
    ensures forall i | 0 <= i < referenced.Length ::
              seenUnreachable[i] <==> old(seenUnreachable[i]) || (i == peer && entry.state == Unreachable)
    ensures more == if observer < peer && entry.state == Reachable && entry.incarnation != 0 &&
                       entry.incarnation == incarnation
                    then pairs + [(observer, peer)] else pairs
  {
    more := pairs;
    referenced[observer] := true;
    referenced[peer] := true;
    if entry.state == Unreachable {
      seenUnreachable[peer] := true;
      return;
    }
    if entry.state != Reachable {
      return;
    }
    if entry.incarnation == 0 || entry.incarnation != incarnation {
      return;
    }
    if observer < peer {
      more := more + [(observer, peer)];
    }
  }

  /** src/partition.cpp:301-322: one pass over the table, in whatever order. */
  method ScanTable(members: seq<Id>, incarnations: seq<nat>, indexOf: map<Id, nat>,
                   table: map<(Id, Id), PeerObservation>, referenced: array<bool>, seenUnreachable: array<bool>)
    returns (candidatePairs: seq<(nat, nat)>)
    requires |incarnations| == |members| == referenced.Length == seenUnreachable.Length
    requires referenced != seenUnreachable && StrictlyAscending(members)
    requires forall i | 0 <= i < |members| :: members[i] in indexOf && indexOf[members[i]] == i
    requires Keyed(members, table)
    requires forall i | 0 <= i < |members| :: !referenced[i] && !seenUnreachable[i]
    modifies referenced, seenUnreachable
    ensures forall i | 0 <= i < |members| :: referenced[i] <==> ReferencedIn(table.Keys, members[i])
    ensures forall i | 0 <= i < |members| :: seenUnreachable[i] <==> UnreachableIn(table.Keys, table, members[i])
    ensures Pairs(candidatePairs, table.Keys, members, incarnations, table)
  {
    candidatePairs := [];
    var remaining := table.Keys;
    ghost var done: set<(Id, Id)> := {};
    while remaining != {}
      invariant done + remaining == table.Keys && done !! remaining
      invariant forall i | 0 <= i < |members| :: referenced[i] <==> ReferencedIn(done, members[i])
      invariant forall i | 0 <= i < |members| :: seenUnreachable[i] <==> UnreachableIn(done, table, members[i])
      invariant Pairs(candidatePairs, done, members, incarnations, table)
      decreases remaining
    {
      hide Pairs, ReferencedIn, UnreachableIn, StrictlyAscending;
      var key :| key in remaining;
      remaining := remaining - {key};
      assert key in table;
      var observer, peer := indexOf[key.0], indexOf[key.1];
      FlagsStep(members, table, done, key, observer, peer);
      PairsStep(candidatePairs, done, members, incarnations, table, key, observer, peer);
      candidatePairs := ScanEntry(table[key], incarnations[peer], observer, peer, referenced, seenUnreachable,
                                  candidatePairs);
      done := done + {key};
    }
    assert done == table.Keys;
  }

  /** src/partition.cpp:323-342: unite the pairs both ends confirm. */
  method UnitePairs(s: Survey, table: map<(Id, Id), PeerObservation>, candidatePairs: seq<(nat, nat)>,
                    sets: DisjointSet, confirmed: array<bool>)
    requires WellSized(s) && Tabulates(table, Usable(s))
    requires Pairs(candidatePairs, table.Keys, Members(s), s.incarnations, table)
    requires sets.Valid() && sets.parent.Length == |Members(s)| == confirmed.Length && sets.united == {}
    requires forall i | 0 <= i < confirmed.Length :: !confirmed[i]
    modifies sets, sets.parent, sets.rank, confirmed
    ensures sets.Valid() && sets.united == Graph(s)
    ensures forall i | 0 <= i < confirmed.Length :: confirmed[i] <==> HasEdge(s, i)
  {
    hide Latest, Usable;
    var members := SortUnique(s.active);
    for k := 0 to |candidatePairs|
      invariant sets.Valid()
      invariant forall e :: e in sets.united <==> e in candidatePairs[..k] && IsEdge(s, e)
      invariant forall i | 0 <= i < confirmed.Length ::
                  confirmed[i] <==> exists j: nat :: (i, j) in sets.united || (j, i) in sets.united
    {
      var pair := candidatePairs[k];
      assert (pair.0, pair.1) in candidatePairs;
      assert candidatePairs[..k + 1] == candidatePairs[..k] + [pair];
      var a, b := members[pair.0], members[pair.1];
      ghost var forth, back := Latest(Usable(s), a, b), Latest(Usable(s), b, a);
      if (a, b) !in table || (b, a) !in table {
        continue;
      }
      var forward, backward := table[(a, b)], table[(b, a)];
      if forward.state != Reachable || backward.state != Reachable {
        continue;
      }
      if forward.incarnation != s.incarnations[pair.1] || backward.incarnation != s.incarnations[pair.0] {
        continue;
      }
      assert IsEdge(s, pair);
      ghost var was := sets.united;
      sets.Unite(pair.0, pair.1);
      confirmed[pair.0] := true;
      confirmed[pair.1] := true;
      assert (pair.0, pair.1) in sets.united;
    }
    forall e: (nat, nat) ensures e in sets.united <==> IsEdge(s, e) {
      if IsEdge(s, e) {
        ghost var forth := Latest(Usable(s), members[e.0], members[e.1]);
        assert Candidate(members, s.incarnations, table, e.0, e.1);
        assert (e.0, e.1) in candidatePairs;
      }
    }
    assert sets.united == Graph(s);
  }

  /** src/partition.cpp:356-366: members grouped by representative. */
  method GroupByRoot(s: Survey, sets: DisjointSet) returns (grouped: map<nat, set<Id>>)
    requires WellSized(s) && Members(s) != []
    requires sets.Valid() && sets.parent.Length == |Members(s)| && sets.united == Graph(s)
    modifies sets.parent
    ensures grouped.Values == Components(s)
    ensures |grouped| == 1 <==> |Components(s)| == 1
  {
    var members := SortUnique(s.active);
    ghost var root := sets.root;
    grouped := map[];
    for i := 0 to |members|
      invariant sets.Valid() && sets.root == root
      invariant forall r :: r in grouped <==> exists j | 0 <= j < i :: root[j] == r
      invariant forall r | r in grouped :: grouped[r] == set j | 0 <= j < i && root[j] == r :: members[j]
    {
      var r := sets.Find(i);
      ghost var before := grouped;
      var group := if r in grouped then grouped[r] else {};
      grouped := grouped[r := group + {members[i]}];
      forall q | q in grouped ensures grouped[q] == set j | 0 <= j < i + 1 && root[j] == q :: members[j] {
        if q != r {
          assert forall j | 0 <= j < i + 1 && root[j] == q :: j < i;
        } else if r !in before {
          assert forall j | 0 <= j < i :: root[j] != r;
        }
      }
    }
    GroupsAreComponents(s, root, grouped);
  }

  lemma GroupsAreComponents(s: Survey, root: seq<nat>, grouped: map<nat, set<Id>>)
    requires WellSized(s) && Members(s) != [] && |root| == |Members(s)| && Faithful(root, Graph(s))
    requires forall r :: r in grouped <==> exists j | 0 <= j < |root| :: root[j] == r
    requires forall r | r in grouped :: grouped[r] == set j | 0 <= j < |root| && root[j] == r :: Members(s)[j]
    ensures grouped.Values == Components(s)
    ensures |grouped| == 1 <==> |Components(s)| == 1
  {
    forall i | 0 <= i < |root| ensures grouped[root[i]] == ComponentOf(s, i) {
      assert forall j | 0 <= j < |root| :: root[i] == root[j] <==> Linked(Graph(s), i, j);
    }
    assert grouped.Values == Components(s);
    ComponentsOfConnectedGraph(s);
    if GraphConnected(s) {
      forall i | 0 <= i < |root| ensures root[i] == root[0] {
        assert Linked(Graph(s), i, 0);
      }
      assert grouped.Keys == {root[0]};
    }
    if |grouped| == 1 {
      forall i, j | 0 <= i < |root| && 0 <= j < |root| ensures Linked(Graph(s), i, j) {
        SameElement(grouped.Keys, root[i], root[j]);
      }
    }
  }

  method IndexMembers(members: seq<Id>) returns (indexOf: map<Id, nat>)
    requires StrictlyAscending(members)
    ensures forall i | 0 <= i < |members| :: members[i] in indexOf && indexOf[members[i]] == i
  {
    indexOf := map[];
    for i := 0 to |members|
      invariant forall k | 0 <= k < i :: members[k] in indexOf && indexOf[members[k]] == k
    {
      indexOf := indexOf[members[i] := i];
    }
  }

  /** src/partition.cpp:344-354. */
  method ListFlagged(members: seq<Id>, confirmed: array<bool>, seenUnreachable: array<bool>, referenced: array<bool>)
    returns (mutuallyReachable: set<Id>, unreachable: set<Id>, unobserved: set<Id>)
    requires |members| == confirmed.Length == seenUnreachable.Length == referenced.Length
    ensures mutuallyReachable == set k | 0 <= k < |members| && confirmed[k] :: members[k]
    ensures unreachable == set k | 0 <= k < |members| && seenUnreachable[k] && !confirmed[k] :: members[k]
    ensures unobserved == set k | 0 <= k < |members| && !referenced[k] :: members[k]
  {
    mutuallyReachable, unreachable, unobserved := {}, {}, {};
    for i := 0 to |members|
      invariant mutuallyReachable == set k | 0 <= k < i && confirmed[k] :: members[k]
      invariant unreachable == set k | 0 <= k < i && seenUnreachable[k] && !confirmed[k] :: members[k]
      invariant unobserved == set k | 0 <= k < i && !referenced[k] :: members[k]
    {
      if confirmed[i] {
        mutuallyReachable := mutuallyReachable + {members[i]};
      }
      if seenUnreachable[i] && !confirmed[i] {
        unreachable := unreachable + {members[i]};
      }
      if !referenced[i] {
        unobserved := unobserved + {members[i]};
      }
    }
  }

  method AssessPartition(s: Survey) returns (assessment: Assessment)
    ensures assessment == AssessmentOf(s)
  {
    hide Usable, Latest, Graph, HasEdge, Components, ReferencedIn, UnreachableIn, Covered, ReportedUnreachable,
         Pairs, Tabulates, Forest, Faithful;
    var members := SortUnique(s.active);
    if |members| != |s.incarnations| {
      return Assessment(Indeterminate, {}, {}, {}, {}, false);
    }
    if members == [] {
      return Assessment(Empty, {}, {}, {}, {}, true);
    }
    if |members| == 1 {
      return Assessment(Connected, {Elements(members)}, Elements(members), {}, {}, true);
    }
    var indexOf := IndexMembers(members);
    var table := Tabulate(s);
    TableIsKeyed(s, table);
    CoverageFromTable(s, table);
    var sets := new DisjointSet(|members|);
    var confirmed := new bool[|members|](_ => false);
    var referenced := new bool[|members|](_ => false);
    var seenUnreachable := new bool[|members|](_ => false);
    var candidatePairs := ScanTable(members, s.incarnations, indexOf, table, referenced, seenUnreachable);
    UnitePairs(s, table, candidatePairs, sets, confirmed);
    var mutuallyReachable, unreachable, unobserved := ListFlagged(members, confirmed, seenUnreachable, referenced);
    var grouped := GroupByRoot(s, sets);
    assert unobserved == set m | m in members && !Covered(Usable(s), m);
    var state := if unobserved != {} then Indeterminate
                 else if |grouped| == 1 then Connected else Split;
    assessment := Assessment(state, grouped.Values, mutuallyReachable, unreachable, unobserved, true);
  }

  lemma CoverageFromTable(s: Survey, table: map<(Id, Id), PeerObservation>)
    requires Tabulates(table, Usable(s))
    ensures forall m :: Covered(Usable(s), m) <==> ReferencedIn(table.Keys, m)
    ensures forall m :: ReportedUnreachable(Usable(s), m) <==> UnreachableIn(table.Keys, table, m)
  {
    var reports := Usable(s);
    forall m
      ensures Covered(reports, m) <==> ReferencedIn(table.Keys, m)
      ensures ReportedUnreachable(reports, m) <==> UnreachableIn(table.Keys, table, m)
    {
      if Covered(reports, m) {
        var r :| r in reports && Mentions(r, m);
        assert r in ReportsOn(reports, r.observer, r.about.peer);
        assert Latest(reports, r.observer, r.about.peer).Some?;
        assert Touches((r.observer, r.about.peer), m);
      }
      if ReferencedIn(table.Keys, m) {
        var key :| key in table && Touches(key, m);
        assert Mentions(Latest(reports, key.0, key.1).value, m);
      }
      if ReportedUnreachable(reports, m) {
        var r :| r in reports && r.about.peer == m && Latest(reports, r.observer, m).Some? &&
                 Latest(reports, r.observer, m).value.about.state == Unreachable;
        assert (r.observer, m) in table;
      }
      if UnreachableIn(table.Keys, table, m) {
        var key :| key in table && key.1 == m && table[key].state == Unreachable;
        var r := Latest(reports, key.0, key.1).value;
        assert r in reports && r.about.peer == m;
      }
    }
  }
}
