/** Connectivity of an undirected edge set, by paths. */
module Connectivity {

  predicate Adjacent<T(==)>(edges: set<(T, T)>, i: T, j: T) {
    (i, j) in edges || (j, i) in edges
  }

  ghost predicate Path<T(!new)>(edges: set<(T, T)>, p: seq<T>, i: T, j: T) {
    && |p| > 0 && p[0] == i && p[|p| - 1] == j
    && forall k :: 0 <= k < |p| - 1 ==> Adjacent(edges, p[k], p[k + 1])
  }

  ghost predicate Connected<T(!new)>(edges: set<(T, T)>, i: T, j: T) {
    exists p :: Path(edges, p, i, j)
  }

  lemma {:induction false} ConnectedRefl<T(!new)>(edges: set<(T, T)>, i: T)
    ensures Connected(edges, i, i)
  {
    assert Path(edges, [i], i, i);
  }

  lemma {:induction false} ConnectedTrans<T(!new)>(edges: set<(T, T)>, i: T, j: T, k: T)
    requires Connected(edges, i, j) && Connected(edges, j, k)
    ensures Connected(edges, i, k)
  {
    var p :| Path(edges, p, i, j);
    var q :| Path(edges, q, j, k);
    assert Path(edges, p + q[1..], i, k);
  }

  lemma {:induction false} ConnectedSymm<T(!new)>(edges: set<(T, T)>, i: T, j: T)
    requires Connected(edges, i, j)
    ensures Connected(edges, j, i)
  {
    var p :| Path(edges, p, i, j);
    var q := seq(|p|, k requires 0 <= k < |p| => p[|p| - 1 - k]);
    forall k | 0 <= k < |q| - 1 ensures Adjacent(edges, q[k], q[k + 1]) {
      assert Adjacent(edges, p[|p| - 2 - k], p[|p| - 2 - k + 1]);
    }
    assert Path(edges, q, j, i);
  }

  lemma {:induction false} ConnectedMonotone<T(!new)>(edges: set<(T, T)>, more: set<(T, T)>, i: T, j: T)
    requires edges <= more && Connected(edges, i, j)
    ensures Connected(more, i, j)
  {
    var p :| Path(edges, p, i, j);
    assert Path(more, p, i, j);
  }

  lemma {:induction false} EdgeConnects<T(!new)>(edges: set<(T, T)>, e: (T, T))
    requires e in edges
    ensures Connected(edges, e.0, e.1)
  {
    assert Path(edges, [e.0, e.1], e.0, e.1);
  }
}
