/** What the mean of chunk vectors is, said without dividing: every chunk weighs the same, in any order. */
module EmbeddingMean {
  import opened EmbeddingPool

  function Component(v: Vector, i: nat): real {
    if i < |v| then v[i] else 0.0
  }

  lemma {:induction false} SumOfParts(a: seq<Vector>, b: seq<Vector>, i: nat)
    ensures Sum(a + b, i) == Sum(a, i) + Sum(b, i)
    decreases |b|
  {
    if b == [] {
      assert a + b == a;
    } else {
      SumOfParts(a, b[..|b| - 1], i);
      assert (a + b)[..|a + b| - 1] == a + b[..|b| - 1];
    }
  }

  lemma {:induction false} SumWithout(vectors: seq<Vector>, k: nat, i: nat)
    requires k < |vectors|
    ensures multiset(vectors[..k] + vectors[k + 1..]) == multiset(vectors) - multiset{vectors[k]}
    ensures Sum(vectors, i) == Sum(vectors[..k] + vectors[k + 1..], i) + Component(vectors[k], i)
  {
    assert vectors == (vectors[..k] + [vectors[k]]) + vectors[k + 1..];
    SumOfParts(vectors[..k], vectors[k + 1..], i);
    SumOfParts(vectors[..k] + [vectors[k]], vectors[k + 1..], i);
    assert (vectors[..k] + [vectors[k]])[..k] == vectors[..k];
  }

  lemma {:induction false} SumIgnoresOrder(vectors: seq<Vector>, others: seq<Vector>, i: nat)
    requires multiset(vectors) == multiset(others)
    ensures Sum(vectors, i) == Sum(others, i)
    decreases |vectors|
  {
    if vectors == [] {
      assert |multiset(others)| == 0;
    } else {
      var n := |vectors| - 1;
      SumWithout(vectors, n, i);
      assert vectors[..n] + vectors[n + 1..] == vectors[..n];
      assert vectors[n] in multiset(others);
      var k :| 0 <= k < |others| && others[k] == vectors[n];
      SumWithout(others, k, i);
      hide Sum;
      SumIgnoresOrder(vectors[..n], others[..k] + others[k + 1..], i);
    }
  }

  /** The mean depends on which vectors there are, not on the order they were answered in. */
  lemma {:induction false} MeanIgnoresOrder(vectors: seq<Vector>, others: seq<Vector>)
    requires SameLength(vectors) && multiset(vectors) == multiset(others)
    ensures SameLength(others) && MeanOf(vectors) == MeanOf(others)
  {
    assert |vectors| == |multiset(vectors)| == |multiset(others)| == |others|;
    if vectors == [] {
    } else {
      forall k | 0 <= k < |others| ensures |others[k]| == |vectors[0]| {
        assert others[k] in multiset(vectors);
        var m :| 0 <= m < |vectors| && vectors[m] == others[k];
      }
      forall i | 0 <= i < |vectors[0]| ensures MeanOf(vectors)[i] == MeanOf(others)[i] {
        SumIgnoresOrder(vectors, others, i);
      }
    }
  }

  lemma {:induction false} SumOfChanged(vectors: seq<Vector>, k: nat, v: Vector, i: nat)
    requires k < |vectors|
    ensures Sum(vectors[k := v], i) == Sum(vectors, i) - Component(vectors[k], i) + Component(v, i)
  {
    SumWithout(vectors, k, i);
    SumWithout(vectors[k := v], k, i);
    assert vectors[k := v][..k] + vectors[k := v][k + 1..] == vectors[..k] + vectors[k + 1..];
  }

  lemma {:induction false} QuotientMoves(sum: real, d: real, n: real)
    requires n != 0.0
    ensures (sum + d) / n == sum / n + d / n
  {}

  /** Every chunk has the same say: moving one component of one of n vectors by d moves the mean's by d / n. */
  lemma {:induction false} ChunkMovesMean(vectors: seq<Vector>, k: nat, i: nat, d: real)
    requires SameLength(vectors) && k < |vectors| && i < |vectors[k]|
    ensures var moved := vectors[k := vectors[k][i := vectors[k][i] + d]];
            && SameLength(moved) && |MeanOf(moved)| == |MeanOf(vectors)| == |vectors[k]|
            && MeanOf(moved) == MeanOf(vectors)[i := MeanOf(vectors)[i] + d / |vectors| as real]
  {
    var v := vectors[k][i := vectors[k][i] + d];
    var moved := vectors[k := v];
    assert |vectors[k]| == |vectors[0]| && |moved[0]| == |vectors[0]|;
    forall m | 0 <= m < |moved| ensures |moved[m]| == |moved[0]| { assert |vectors[m]| == |vectors[0]|; }
    forall j: nat | j < |vectors[0]|
      ensures MeanOf(moved)[j] == MeanOf(vectors)[j] + (if j == i then d / |vectors| as real else 0.0)
    {
      SumOfChanged(vectors, k, v, j);
      if j == i { QuotientMoves(Sum(vectors, i), d, |vectors| as real); }
    }
  }
}
