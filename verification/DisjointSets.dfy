/**
 Union-find as the topic pass uses it: a parent array, a path-compressing `Find`, and a `Union`
 that hangs one root under the other. The partition it computes is connectivity of the united edges.
 */
module DisjointSets {
  import opened Connectivity

  type Edge = (nat, nat)

  // ---------- merging root maps ----------

  function Identity(n: nat): seq<nat> {
    seq(n, i => i)
  }

  predicate InRange(n: nat, edges: seq<Edge>) {
    forall e :: e in edges ==> e.0 < n && e.1 < n
  }

  /** Everything rooted where `a` is becomes rooted where `b` is. */
  function Merge(root: seq<nat>, a: nat, b: nat): seq<nat>
    requires a < |root| && b < |root|
  {
    seq(|root|, i requires 0 <= i < |root| => if root[i] == root[a] then root[b] else root[i])
  }

  function MergeAll(n: nat, edges: seq<Edge>): (root: seq<nat>)
    requires InRange(n, edges)
    ensures |root| == n
  {
    if edges == [] then Identity(n)
    else
      var e := edges[|edges| - 1];
      Merge(MergeAll(n, edges[..|edges| - 1]), e.0, e.1)
  }

  ghost function EdgeSet(edges: seq<Edge>): set<Edge> {
    set e | e in edges
  }

  lemma {:induction false} UnitedEdgesMeet(n: nat, edges: seq<Edge>, e: Edge)
    requires InRange(n, edges) && e in edges
    ensures MergeAll(n, edges)[e.0] == MergeAll(n, edges)[e.1]
  {
    var rest, last := edges[..|edges| - 1], edges[|edges| - 1];
    assert edges == rest + [last];
    if e != last {
      UnitedEdgesMeet(n, rest, e);
    }
  }

  /** Nodes whose edges all have equal roots at both ends have equal roots along every path. */
  lemma {:induction false} RootsAgreeAlongPath(root: seq<nat>, edges: set<Edge>, p: seq<nat>, i: nat, j: nat)
    requires forall e :: e in edges ==> e.0 < |root| && e.1 < |root| && root[e.0] == root[e.1]
    requires i < |root| && Path<nat>(edges, p, i, j)
    ensures j < |root| && root[i] == root[j]
    decreases |p|
  {
    if |p| <= 1 {
    } else {
      assert Adjacent<nat>(edges, p[0], p[0 + 1]);
      forall k | 0 <= k < |p[1..]| - 1 ensures Adjacent<nat>(edges, p[1..][k], p[1..][k + 1]) {
        assert Adjacent<nat>(edges, p[k + 1], p[k + 1 + 1]);
      }
      RootsAgreeAlongPath(root, edges, p[1..], p[1], j);
    }
  }

  lemma {:induction false} EqualRootsAreConnected(n: nat, edges: seq<Edge>, i: nat, j: nat)
    requires InRange(n, edges) && i < n && j < n
    requires MergeAll(n, edges)[i] == MergeAll(n, edges)[j]
    ensures Connected<nat>(EdgeSet(edges), i, j)
    decreases |edges|, 0
  {
    var all := EdgeSet(edges);
    if edges == [] {
      ConnectedRefl<nat>(all, i);
    } else {
      var rest, e := edges[..|edges| - 1], edges[|edges| - 1];
      var root := MergeAll(n, rest);
      EdgeConnects<nat>(all, e);
      if root[i] == root[j] {
        Lift(n, rest, all, i, j);
      } else if root[i] == root[e.0] {
        Lift(n, rest, all, i, e.0);
        Lift(n, rest, all, e.1, j);
        ConnectedTrans<nat>(all, i, e.0, e.1);
        ConnectedTrans<nat>(all, i, e.1, j);
      } else {
        Lift(n, rest, all, i, e.1);
        Lift(n, rest, all, e.0, j);
        ConnectedSymm<nat>(all, e.0, e.1);
        ConnectedTrans<nat>(all, i, e.1, e.0);
        ConnectedTrans<nat>(all, i, e.0, j);
      }
    }
  }

  lemma {:induction false} Lift(n: nat, rest: seq<Edge>, all: set<Edge>, i: nat, j: nat)
    requires InRange(n, rest) && i < n && j < n && EdgeSet(rest) <= all
    requires MergeAll(n, rest)[i] == MergeAll(n, rest)[j]
    ensures Connected<nat>(all, i, j)
    decreases |rest|, 1
  {
    EqualRootsAreConnected(n, rest, i, j);
    ConnectedMonotone<nat>(EdgeSet(rest), all, i, j);
  }

  /** After any sequence of unions, two nodes share a root exactly when the united edges connect them. */
  lemma {:induction false} UnionsComputeConnectivity(n: nat, edges: seq<Edge>, i: nat, j: nat)
    requires InRange(n, edges) && i < n && j < n
    ensures MergeAll(n, edges)[i] == MergeAll(n, edges)[j] <==> Connected<nat>(EdgeSet(edges), i, j)
  {
    var root := MergeAll(n, edges);
    if root[i] == root[j] {
      EqualRootsAreConnected(n, edges, i, j);
    }
    if Connected<nat>(EdgeSet(edges), i, j) {
      var p :| Path<nat>(EdgeSet(edges), p, i, j);
      forall e | e in EdgeSet(edges) ensures e.0 < n && e.1 < n && root[e.0] == root[e.1] {
        UnitedEdgesMeet(n, edges, e);
      }
      RootsAgreeAlongPath(root, EdgeSet(edges), p, i, j);
    }
  }

  /**
   Skipping is safe: uniting only some of the wanted edges gives the same partition as uniting
   all of them, as long as every wanted edge ends up inside one class.
   */
  lemma {:induction false} UnitingEnoughEdges(n: nat, united: seq<Edge>, wanted: set<Edge>, i: nat, j: nat)
    requires InRange(n, united) && i < n && j < n
    requires EdgeSet(united) <= wanted
    requires forall e :: e in wanted ==> e.0 < n && e.1 < n && MergeAll(n, united)[e.0] == MergeAll(n, united)[e.1]
    ensures MergeAll(n, united)[i] == MergeAll(n, united)[j] <==> Connected<nat>(wanted, i, j)
  {
    var root := MergeAll(n, united);
    if root[i] == root[j] {
      EqualRootsAreConnected(n, united, i, j);
      ConnectedMonotone<nat>(EdgeSet(united), wanted, i, j);
    }
    if Connected<nat>(wanted, i, j) {
      var p :| Path<nat>(wanted, p, i, j);
      RootsAgreeAlongPath(root, wanted, p, i, j);
    }
  }

  // ---------- parent links ----------

  /** `root` is where the links lead; `rank` falls along every link, so the links cannot cycle. */
  ghost predicate Forest(parent: seq<nat>, root: seq<nat>, rank: seq<nat>) {
    && |parent| == |root| == |rank|
    && forall i :: 0 <= i < |parent| ==> NodeOk(parent, root, rank, i)
  }

  ghost predicate NodeOk(parent: seq<nat>, root: seq<nat>, rank: seq<nat>, i: nat)
    requires |parent| == |root| == |rank| && i < |parent|
  {
    && parent[i] < |parent| && root[i] < |parent|
    && root[parent[i]] == root[i]
    && root[root[i]] == root[i] && parent[root[i]] == root[i]
    && (parent[i] == i ==> root[i] == i)
    && (parent[i] != i ==> rank[parent[i]] < rank[i] && rank[root[i]] < rank[i])
  }

  function Climb(parent: seq<nat>, i: nat, steps: nat): nat
    requires forall k :: 0 <= k < |parent| ==> parent[k] < |parent|
    requires i < |parent|
    decreases steps
  {
    if steps == 0 then i else Climb(parent, parent[i], steps - 1)
  }

  /** Following parent links from any node ends at its root and stays there. */
  lemma {:induction false} LinksLeadToRoot(parent: seq<nat>, root: seq<nat>, rank: seq<nat>, i: nat, steps: nat)
    requires Forest(parent, root, rank) && i < |parent| && steps >= rank[i]
    ensures forall k :: 0 <= k < |parent| ==> parent[k] < |parent|
    ensures Climb(parent, i, steps) == root[i]
    decreases steps
  {
    forall k | 0 <= k < |parent| ensures parent[k] < |parent| {
      assert NodeOk(parent, root, rank, k);
    }
    assert NodeOk(parent, root, rank, i);
    if steps == 0 {
    } else {
      if parent[i] != i {
        LinksLeadToRoot(parent, root, rank, parent[i], steps - 1);
      } else {
        StaysAtRoot(parent, i, steps);
      }
    }
  }

  lemma {:induction false} StaysAtRoot(parent: seq<nat>, i: nat, steps: nat)
    requires forall k :: 0 <= k < |parent| ==> parent[k] < |parent|
    requires i < |parent| && parent[i] == i
    ensures Climb(parent, i, steps) == i
    decreases steps
  {
    if steps == 0 {
    } else {
      StaysAtRoot(parent, i, steps - 1);
    }
  }

  // ---------- the structure ----------

  class Partition {
    const parent: array<nat>
    /** The root each node's links lead to. */
    ghost var root: seq<nat>
    ghost var rank: seq<nat>

    ghost predicate Valid()
      reads this, parent
    {
      |root| == parent.Length && Forest(parent[..], root, rank)
    }

    constructor (n: nat)
      ensures Valid() && fresh(parent) && parent.Length == n && root == Identity(n)
    {
      parent := new nat[n](i => i);
      root, rank := Identity(n), seq(n, _ => 0);
    }

    /** The plain climb, used by the exhaustive pass. */
    method FindPlain(index: nat) returns (r: nat)
      requires Valid() && index < parent.Length
      ensures r == root[index] && r < parent.Length
    {
      r := index;
      while parent[r] != r
        invariant r < parent.Length && root[r] == root[index]
        decreases rank[r]
      {
        assert NodeOk(parent[..], root, rank, r);
        r := parent[r];
      }
      assert NodeOk(parent[..], root, rank, r);
    }

    /** Climb, then point every node on the way straight at the root. No root changes. */
    method Find(index: nat) returns (r: nat)
      requires Valid() && index < parent.Length
      modifies parent
      ensures Valid() && r == root[index] && r < parent.Length
    {
      r := FindPlain(index);
      var cursor: nat := index;
      assert NodeOk(parent[..], root, rank, cursor);
      while parent[cursor] != r
        invariant Valid() && cursor < parent.Length && root[cursor] == r < parent.Length
        decreases rank[cursor]
      {
        assert NodeOk(parent[..], root, rank, cursor);
        var next := parent[cursor];
        ghost var before := parent[..];
        parent[cursor] := r;
        forall i | 0 <= i < parent.Length ensures NodeOk(parent[..], root, rank, i) {
          assert NodeOk(before, root, rank, i);
          assert NodeOk(before, root, rank, before[i]);
        }
        cursor := next;
      }
    }

    method Union(a: nat, b: nat)
      requires Valid() && a < parent.Length && b < parent.Length
      modifies this, parent
      ensures Valid() && root == Merge(old(root), a, b)
    {
      var rootA := Find(a);
      var rootB := Find(b);
      Link(a, b, rootA, rootB);
    }

    /** Hang one found root under the other, unless they are one. */
    method Link(ghost a: nat, ghost b: nat, rootA: nat, rootB: nat)
      requires Valid() && a < parent.Length && b < parent.Length
      requires rootA == root[a] < parent.Length && rootB == root[b] < parent.Length
      modifies this, parent
      ensures Valid() && root == Merge(old(root), a, b)
    {
      ghost var n, before, root0, rank0 := parent.Length, parent[..], root, rank;
      assert NodeOk(before, root0, rank0, a) && NodeOk(before, root0, rank0, b);
      if rootA != rootB {
        parent[rootA] := rootB;
        root := Merge(root0, a, b);
        rank := seq(n, i requires 0 <= i < n => if root0[i] == rootA then rank0[i] + rank0[rootB] + 1 else rank0[i]);
        forall i | 0 <= i < n ensures NodeOk(parent[..], root, rank, i) {
          assert NodeOk(before, root0, rank0, i);
        }
      } else {
        assert Merge(root0, a, b) == root0;
      }
    }
  }
}
