// src/partition.cpp, DisjointSet: union by rank with path halving.
module DisjointSets {
  import opened Graphs

  /** Element `i` points towards its representative along strictly increasing ranks. */
  ghost predicate Node(parent: seq<nat>, rank: seq<nat>, root: seq<nat>, height: nat, i: nat)
    requires |parent| == |rank| == |root| && i < |parent|
  {
    && parent[i] < |parent| && root[i] < |parent| && rank[i] <= height
    && (parent[i] == i <==> root[i] == i)
    && root[parent[i]] == root[i] && root[root[i]] == root[i]
    && (parent[i] != i ==> rank[i] < rank[parent[i]])
  }

  ghost predicate Forest(parent: seq<nat>, rank: seq<nat>, root: seq<nat>, height: nat) {
    && |parent| == |rank| == |root|
    && forall i | 0 <= i < |parent| :: Node(parent, rank, root, height, i)
  }

  /** Two elements share a representative exactly when the edges link them. */
  ghost predicate Faithful(root: seq<nat>, united: Edges) {
    forall i, j | 0 <= i < |root| && 0 <= j < |root| :: root[i] == root[j] <==> Linked(united, i, j)
  }

  lemma HalvingKeepsForest(parent: seq<nat>, rank: seq<nat>, root: seq<nat>, height: nat, i: nat)
    requires Forest(parent, rank, root, height) && i < |parent| && parent[i] != i
    ensures Node(parent, rank, root, height, i) && Node(parent, rank, root, height, parent[i])
    ensures Forest(parent[i := parent[parent[i]]], rank, root, height)
    ensures rank[i] < rank[parent[parent[i]]] && root[parent[parent[i]]] == root[i]
  {
    assert Node(parent, rank, root, height, i);
    assert Node(parent, rank, root, height, parent[i]);
    var halved := parent[i := parent[parent[i]]];
    forall k | 0 <= k < |parent| ensures Node(halved, rank, root, height, k) {
      assert Node(parent, rank, root, height, k);
    }
  }

  /** The representatives once the group of root `b` joins that of root `a`. */
  ghost function Joined(root: seq<nat>, a: nat, b: nat): (r: seq<nat>)
    ensures |r| == |root|
    ensures forall i | 0 <= i < |root| :: r[i] == if root[i] == b then a else root[i]
  {
    seq(|root|, i requires 0 <= i < |root| => if root[i] == b then a else root[i])
  }

  /** Hanging one root below another of no smaller rank, and raising that rank when
      the two were equal. */
  lemma LinkingKeepsForest(parent: seq<nat>, rank: seq<nat>, root: seq<nat>, height: nat, a: nat, b: nat)
    requires Forest(parent, rank, root, height)
    requires a < |parent| && b < |parent| && a != b && parent[a] == a && parent[b] == b
    requires rank[b] <= rank[a]
    ensures Forest(parent[b := a],
                   if rank[a] == rank[b] then rank[a := rank[a] + 1] else rank,
                   Joined(root, a, b), height + 1)
  {
    var linked, joined, higher := parent[b := a], Joined(root, a, b), height + 1;
    var raised := if rank[a] == rank[b] then rank[a := rank[a] + 1] else rank;
    assert Node(parent, rank, root, height, a) && Node(parent, rank, root, height, b);
    forall i | 0 <= i < |parent| ensures Node(linked, raised, joined, higher, i) {
      assert Node(parent, rank, root, height, i);
    }
  }

  /** Merging the two groups of an edge's ends is what the edge does to linkage. */
  lemma JoiningIsFaithful(root: seq<nat>, united: Edges, x: nat, y: nat, a: nat, b: nat)
    requires x < |root| && y < |root| && Faithful(root, united)
    requires (a == root[x] && b == root[y]) || (a == root[y] && b == root[x])
    requires a != b && a < |root| && root[a] == a
    ensures Faithful(Joined(root, a, b), united + {(x, y)})
  {
    var after := Joined(root, a, b);
    forall i, j | 0 <= i < |root| && 0 <= j < |root|
      ensures after[i] == after[j] <==> Linked(united + {(x, y)}, i, j)
    {
      LinkedWithEdge(united, x, y, i, j);
      assert root[i] == root[j] <==> Linked(united, i, j);
      assert root[i] == root[x] <==> Linked(united, i, x);
      assert root[i] == root[y] <==> Linked(united, i, y);
      assert root[x] == root[j] <==> Linked(united, x, j);
      assert root[y] == root[j] <==> Linked(united, y, j);
    }
  }

  lemma AlreadyJoinedIsFaithful(root: seq<nat>, united: Edges, x: nat, y: nat)
    requires x < |root| && y < |root| && Faithful(root, united) && root[x] == root[y]
    ensures Faithful(root, united + {(x, y)})
  {
    forall i, j | 0 <= i < |root| && 0 <= j < |root|
      ensures root[i] == root[j] <==> Linked(united + {(x, y)}, i, j)
    {
      LinkedWithEdge(united, x, y, i, j);
      assert root[i] == root[j] <==> Linked(united, i, j);
      assert root[i] == root[x] <==> Linked(united, i, x);
      assert root[i] == root[y] <==> Linked(united, i, y);
      assert root[x] == root[j] <==> Linked(united, x, j);
      assert root[y] == root[j] <==> Linked(united, y, j);
    }
  }

  lemma SingletonsAreFaithful(root: seq<nat>)
    requires forall i | 0 <= i < |root| :: root[i] == i
    ensures Faithful(root, {})
  {
    forall i, j | 0 <= i < |root| && 0 <= j < |root|
      ensures root[i] == root[j] <==> Linked({}, i, j)
    {
      if i == j { LinkedToItself({}, i); }
      if Linked({}, i, j) {
        var p :| IsPath({}, p, i, j);
        if |p| > 1 { assert Adjacent({}, p[0], p[0 + 1]); }
      }
    }
  }

  class DisjointSet {
    const parent: array<nat>
    const rank: array<nat>
    ghost var root: seq<nat>
    ghost var height: nat
    /** The pairs united so far. */
    ghost var united: Edges

    ghost predicate Valid()
      reads this, parent, rank
    {
      parent != rank && Forest(parent[..], rank[..], root, height) && Faithful(root, united)
    }

    constructor (size: nat)
      ensures Valid() && parent.Length == size && united == {}
      ensures fresh(parent) && fresh(rank)
    {
      parent := new nat[size](i => i);
      rank := new nat[size](_ => 0);
      root := seq(size, i => i);
      height := 0;
      united := {};
      new;
      SingletonsAreFaithful(root);
    }

    /** Terminates because ranks strictly increase towards the root. */
    method Find(start: nat) returns (r: nat)
      requires Valid() && start < parent.Length
      modifies parent
      ensures Valid() && r < parent.Length && r == root[start] && parent[r] == r == root[r]
    {
      var index: nat := start;
      assert Node(parent[..], rank[..], root, height, index);
      while parent[index] != index
        invariant Valid() && index < parent.Length && root[index] == root[start]
        invariant Node(parent[..], rank[..], root, height, index)
        decreases height - rank[index]
      {
        HalvingKeepsForest(parent[..], rank[..], root, height, index);
        ghost var halved := parent[..][index := parent[parent[index]]];
        parent[index] := parent[parent[index]];
        assert parent[..] == halved;
        index := parent[index];
        assert Node(parent[..], rank[..], root, height, index);
      }
      return index;
    }

    method Unite(x: nat, y: nat)
      requires Valid() && x < parent.Length && y < parent.Length
      modifies this, parent, rank
      ensures Valid()
      ensures united == old(united) + {(x, y)}
    {
      var a := Find(x);
      var b := Find(y);
      if a == b {
        AlreadyJoinedIsFaithful(root, united, x, y);
        united := united + {(x, y)};
        return;
      }
      assert Node(parent[..], rank[..], root, height, x) && Node(parent[..], rank[..], root, height, y);
      if rank[a] < rank[b] {
        a, b := b, a;
      }
      assert Node(parent[..], rank[..], root, height, a) && Node(parent[..], rank[..], root, height, b);
      JoiningIsFaithful(root, united, x, y, a, b);
      hide Faithful;
      Link(a, b);
      united := united + {(x, y)};
    }

    /** Hangs the lower root below the other one. */
    method Link(a: nat, b: nat)
      requires parent != rank && Forest(parent[..], rank[..], root, height)
      requires a < parent.Length && b < parent.Length && a != b
      requires parent[a] == a && parent[b] == b && rank[b] <= rank[a]
      modifies this`root, this`height, parent, rank
      ensures Forest(parent[..], rank[..], root, height) && root == Joined(old(root), a, b)
    {
      hide Node;
      LinkingKeepsForest(parent[..], rank[..], root, height, a, b);
      ghost var linked, raised := parent[..][b := a],
        if rank[a] == rank[b] then rank[..][a := rank[a] + 1] else rank[..];
      hide Forest;
      parent[b] := a;
      assert parent[..] == linked;
      if rank[a] == rank[b] {
        rank[a] := rank[a] + 1;
      }
      assert rank[..] == raised;
      root, height := Joined(root, a, b), height + 1;
    }
  }
}
