/**
 The two exact filters of a set-similarity join, shared by the near-duplicate and the topic pass.

 A similarity bound is the rational `num / den`; a pair of sets reaches it when
 `den * shared >= num * union`. Nothing here divides or rounds.
 */
module SetJoin {
  import opened Ordering

  // ---------- the similarity test ----------

  /** `|A| + |B| - |A * B|`, the way the code computes the size of the union. */
  function UnionSize<T>(A: set<T>, B: set<T>): int {
    |A| + |B| - |A * B|
  }

  predicate Reaches<T>(num: int, den: nat, A: set<T>, B: set<T>) {
    den * |A * B| >= num * UnionSize(A, B)
  }

  lemma {:induction false} UnionSizeIsUnion<T>(A: set<T>, B: set<T>)
    ensures UnionSize(A, B) == |A + B|
    ensures |A| <= UnionSize(A, B) && |B| <= UnionSize(A, B)
    ensures UnionSize(A, B) == UnionSize(B, A) && A * B == B * A
  {
    assert A * B == B * A;
    assert |A * B| <= |B| by { SubsetSize(A * B, B); }
    assert |A * B| <= |A| by { SubsetSize(A * B, A); }
  }

  lemma {:induction false} ListedSize<T>(A: set<T>, s: seq<T>)
    requires forall x :: x in A ==> x in s
    ensures |A| <= |s|
  {
    if s == [] {
      assert A == {};
    } else {
      var rest := A - {s[0]};
      forall x | x in rest ensures x in s[1..] {}
      ListedSize(rest, s[1..]);
      SubsetSize(A, rest + {s[0]});
    }
  }

  // ---------- one global order, rarest first ----------

  function GetOr(m: map<string, nat>, key: string): nat {
    if key in m then m[key] else 0
  }

  /** Document frequency first, code points on a tie. */
  function GlobalOrder(frequency: map<string, nat>): (string, string) -> bool {
    (a, b) =>
      GetOr(frequency, a) < GetOr(frequency, b)
      || (GetOr(frequency, a) == GetOr(frequency, b) && AtMost(a, b))
  }

  ghost predicate Antisymmetric<T(!new)>(le: (T, T) -> bool) {
    forall x, y :: le(x, y) && le(y, x) ==> x == y
  }

  lemma {:induction false} GlobalOrderIsTotal(frequency: map<string, nat>)
    ensures TotalPreorder(GlobalOrder(frequency)) && Antisymmetric(GlobalOrder(frequency))
  {
    AtMostIsTotalPreorder();
    forall x, y | AtMost(x, y) && AtMost(y, x) ensures x == y { AtMostTotal(x, y); }
  }

  /** `s` lists exactly the members of `A`, once each, in the order `le`. */
  ghost predicate Ranks<T(!new)>(le: (T, T) -> bool, s: seq<T>, A: set<T>) {
    && Ordered(le, s)
    && Distinct(s)
    && |s| == |A|
    && forall x :: x in s <==> x in A
  }

  method RankTerms(terms: set<string>, le: (string, string) -> bool) returns (ranked: seq<string>)
    requires TotalPreorder(le)
    ensures Ranks(le, ranked, terms)
  {
    var todo, list := terms, [];
    while todo != {}
      invariant todo <= terms && |list| + |todo| == |terms|
      invariant forall x :: x in list <==> x in terms - todo
      invariant Distinct(list)
    {
      var x :| x in todo;
      assert x !in list;
      todo, list := todo - {x}, list + [x];
    }
    ranked := Sort(list, le);
    SortOrders(list, le);
    SortKeepsMembers(list, le);
    SortKeepsDistinct(list, le);
  }

  /** In how many of the sets a term occurs. */
  function Frequency(sets: seq<set<string>>, term: string): nat {
    if sets == [] then 0
    else Frequency(sets[..|sets| - 1], term)
         + (if term in sets[|sets| - 1] then 1 else 0)
  }

  method DocumentFrequency(sets: seq<set<string>>) returns (frequency: map<string, nat>)
    ensures forall s :: GetOr(frequency, s) == Frequency(sets, s)
  {
    frequency := map[];
    assert sets[..0] == [];
    for n := 0 to |sets|
      invariant forall s :: GetOr(frequency, s) == Frequency(sets[..n], s)
    {
      assert sets[..n + 1][..n] == sets[..n];
      var terms := sets[n];
      var todo := terms;
      while todo != {}
        invariant todo <= terms
        invariant forall s :: GetOr(frequency, s)
                              == Frequency(sets[..n], s) + (if s in terms - todo then 1 else 0)
      {
        var s :| s in todo;
        frequency := frequency[s := GetOr(frequency, s) + 1];
        todo := todo - {s};
      }
    }
    assert sets[..|sets|] == sets;
  }

  // ---------- the inverted index ----------

  /** Position `k` is filed under `s`. */
  predicate Posted(postings: map<string, seq<nat>>, s: string, k: nat) {
    s in postings && k in postings[s]
  }

  /** Some prefix term's posting list holds position `k`. */
  ghost predicate Offered(postings: map<string, seq<nat>>, prefix: seq<string>, k: nat) {
    exists s :: s in prefix && Posted(postings, s, k)
  }

  lemma {:induction false} OfferedStep(postings: map<string, seq<nat>>, prefix: seq<string>, i: nat)
    requires i < |prefix|
    ensures forall k: nat :: Offered(postings, prefix[..i + 1], k) <==>
              Offered(postings, prefix[..i], k) || Posted(postings, prefix[i], k)
  {
    assert prefix[..i + 1] == prefix[..i] + [prefix[i]];
  }

  /** Enter a position under each prefix term. */
  method IndexPrefix(postings0: map<string, seq<nat>>, prefix: seq<string>, position: nat)
      returns (postings: map<string, seq<nat>>)
    ensures forall s, k: nat :: Posted(postings, s, k) <==>
              Posted(postings0, s, k) || (s in prefix && k == position)
  {
    postings := postings0;
    for i := 0 to |prefix|
      invariant forall s, k: nat :: Posted(postings, s, k) <==>
                  Posted(postings0, s, k) || (s in prefix[..i] && k == position)
    {
      var s := prefix[i];
      assert prefix[..i + 1] == prefix[..i] + [s];
      ghost var before := postings;
      var bucket := (if s in postings then postings[s] else []) + [position];
      postings := postings[s := bucket];
      forall u, k: nat
        ensures Posted(postings, u, k) <==>
                Posted(before, u, k) || (u == s && k == position)
      {}
    }
    assert prefix[..|prefix|] == prefix;
  }

  // ---------- the prefix bound ----------

  function CeilDiv(n: int, d: nat): int
    requires d > 0
  {
    (n + d - 1) / d
  }

  /** How many of a set's first terms a partner reaching `num / den` must meet. */
  function PrefixLength(size: nat, num: int, den: nat): nat
    requires den > 0
  {
    if size == 0 then 0
    else
      var required := CeilDiv(num * size, den);
      if size - required + 1 > 1 then size - required + 1 else 1
  }

  /** `slice(0, k)`: a prefix, clamped to the list. */
  function Take<T>(s: seq<T>, k: nat): seq<T> {
    if k <= |s| then s[..k] else s
  }

  lemma {:induction false} CeilDivIsLeast(n: int, d: nat, m: int)
    requires d > 0
    ensures d * m >= n <==> m >= CeilDiv(n, d)
  {
    var q := CeilDiv(n, d);
    assert d * q >= n && d * (q - 1) < n;
    if m >= q {
      assert d * m >= d * q;
    } else {
      assert d * m <= d * (q - 1);
    }
  }

  /** All but `required - 1` of the terms, and at least one, where `required` is the least whole number that reaches the bound. */
  lemma {:induction false} PrefixLeavesOut(size: nat, num: int, den: nat, required: int)
    requires size > 0 && den > 0 && den * (required - 1) < num * size <= den * required
    ensures PrefixLength(size, num, den) == if size - required + 1 > 1 then size - required + 1 else 1
  {
    CeilDivIsLeast(num * size, den, required);
    CeilDivIsLeast(num * size, den, required - 1);
  }

  lemma {:induction false} MulMonotone(k: int, a: int, b: int)
    requires k >= 0 && a <= b
    ensures k * a <= k * b
  {}

  /** Either set of a qualifying pair shares `ceil(num * size / den)` members with the other. */
  lemma {:induction false} SharedAtLeastRequired<T>(num: nat, den: nat, A: set<T>, B: set<T>)
    requires den > 0 && Reaches(num, den, A, B)
    ensures CeilDiv(num * |A|, den) <= |A * B|
  {
    UnionSizeIsUnion(A, B);
    MulMonotone(num, |A|, UnionSize(A, B));
    CeilDivIsLeast(num * |A|, den, |A * B|);
  }

  /** The first listed member of `A` that `B` shares leaves room for all the shared ones behind it. */
  lemma {:induction false} FirstShared<T>(s: seq<T>, A: set<T>, B: set<T>) returns (i: nat)
    requires forall x :: x in A ==> x in s
    requires A * B != {}
    ensures i < |s| && s[i] in B
    ensures forall k :: 0 <= k < i ==> s[k] !in A * B
    ensures |A * B| <= |s| - i
    ensures s[i] in A
  {
    var x :| x in A * B;
    assert x in s;
    i := 0;
    while s[i] !in A * B
      invariant i < |s|
      invariant forall k :: 0 <= k < i ==> s[k] !in A * B
      invariant exists k :: i <= k < |s| && s[k] == x
      decreases |s| - i
    {
      i := i + 1;
    }
    forall y | y in A * B ensures y in s[i..] {
      var k :| 0 <= k < |s| && s[k] == y;
      assert s[i..][k - i] == y;
    }
    ListedSize(A * B, s[i..]);
  }

  /** A position with all the shared members at or behind it lies inside the prefix. */
  lemma {:induction false} PositionInPrefix<T>(s: seq<T>, i: nat, A: set<T>, B: set<T>, num: nat, den: nat)
    requires num > 0 && den > 0 && A != {} && Reaches(num, den, A, B)
    requires i < |s| == |A| && |A * B| <= |s| - i
    ensures s[i] in Take(s, PrefixLength(|A|, num, den))
  {
    SharedAtLeastRequired(num, den, A, B);
    var k := PrefixLength(|A|, num, den);
    assert i < k;
    assert Take(s, k)[i] == s[i];
  }

  /** In the other list, too, everything shared sits at or behind the least shared member. */
  lemma {:induction false} SharedBehind<T(!new)>(le: (T, T) -> bool, sa: seq<T>, A: set<T>, i: nat, sb: seq<T>, B: set<T>, j: nat)
    requires Ranks(le, sa, A) && Ranks(le, sb, B)
    requires forall y, z :: y in A && z in A && le(y, z) && le(z, y) ==> y == z
    requires i < |sa| && j < |sb| && sa[i] == sb[j]
    requires forall k :: 0 <= k < i ==> sa[k] !in A * B
    ensures |A * B| <= |sb| - j
  {
    forall y | y in A * B ensures y in sb[j..] {
      assert y in sb && y in sa;
      var k :| 0 <= k < |sb| && sb[k] == y;
      var m :| 0 <= m < |sa| && sa[m] == y;
      assert m >= i;
      assert m == i || le(sa[i], y);
      assert sa[i] in A;
      assert k >= j;
      assert sb[j..][k - j] == y;
    }
    ListedSize(A * B, sb[j..]);
  }

  /**
   The prefix theorem: two sets reaching the bound have a common member inside both prefixes,
   for any total order and at every rounding boundary of the integer ceiling.
   */
  lemma {:induction false} PrefixesMeet<T(!new)>(le: (T, T) -> bool, sa: seq<T>, A: set<T>, sb: seq<T>, B: set<T>, num: nat, den: nat)
      returns (x: T)
    requires num > 0 && den > 0
    requires Ranks(le, sa, A) && Ranks(le, sb, B)
    requires forall y, z :: y in A && z in A && le(y, z) && le(z, y) ==> y == z
    requires A != {} && Reaches(num, den, A, B)
    ensures x in Take(sa, PrefixLength(|A|, num, den))
    ensures x in Take(sb, PrefixLength(|B|, num, den))
  {
    SomethingShared(num, den, A, B);
    var i := FirstShared(sa, A, B);
    x := sa[i];
    PositionInPrefix(sa, i, A, B, num, den);
    assert x in sb;
    var j :| 0 <= j < |sb| && sb[j] == x;
    SharedBehind(le, sa, A, i, sb, B, j);
    UnionSizeIsUnion(A, B);
    PositionInPrefix(sb, j, B, A, num, den);
  }

  lemma {:induction false} SomethingShared<T>(num: nat, den: nat, A: set<T>, B: set<T>)
    requires num > 0 && den > 0 && A != {} && Reaches(num, den, A, B)
    ensures A * B != {}
  {
    UnionSizeIsUnion(A, B);
    MulMonotone(num, 1, UnionSize(A, B));
  }

  /** The size bound: a partner smaller than `num / den` of the larger set cannot reach it. */
  lemma {:induction false} SizeBound<T>(num: nat, den: nat, A: set<T>, B: set<T>)
    requires den * |B| < num * |A|
    ensures !Reaches(num, den, A, B)
  {
    UnionSizeIsUnion(A, B);
    SubsetSize(A * B, B);
    MulMonotone(den, |A * B|, |B|);
    MulMonotone(num, |A|, UnionSize(A, B));
  }
}
