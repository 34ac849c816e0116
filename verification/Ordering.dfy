/** The package's one total order on strings, and the stable sort every report goes through. */
module Ordering {

  /** Code-point order on strings, never locale-aware: `AtMost(a, b)` when `a` does not sort after `b`. */
  predicate AtMost(a: string, b: string)
  {
    if a == [] then true
    else if b == [] then false
    else if a[0] != b[0] then a[0] < b[0]
    else AtMost(a[1..], b[1..])
  }

  predicate Before(a: string, b: string) {
    a != b && AtMost(a, b)
  }

  lemma {:induction false} AtMostTotal(a: string, b: string)
    ensures AtMost(a, b) || AtMost(b, a)
    ensures AtMost(a, b) && AtMost(b, a) ==> a == b
  {
    if a == [] || b == [] || a[0] != b[0] {
    } else {
      AtMostTotal(a[1..], b[1..]);
      assert a == [a[0]] + a[1..] && b == [b[0]] + b[1..];
    }
  }

  /** `a` and `b` agree up to `k`, where `a` has the smaller character. */
  ghost predicate SmallerAt(a: string, b: string, k: nat) {
    k < |a| && k < |b| && a[..k] == b[..k] && a[k] < b[k]
  }

  /** The order is decided by the first character that differs; a string stands before its continuations. */
  lemma {:induction false} AtMostIff(a: string, b: string)
    ensures AtMost(a, b) <==> a <= b || exists k: nat :: SmallerAt(a, b, k)
  {
    if a == [] || b == [] {
    } else if a[0] != b[0] {
      if a[0] < b[0] { assert SmallerAt(a, b, 0); }
      forall k: nat | SmallerAt(a, b, k) ensures a[0] < b[0] {
        if k > 0 { assert a[..k][0] == b[..k][0]; }
      }
    } else {
      AtMostIff(a[1..], b[1..]);
      assert a == [a[0]] + a[1..] && b == [b[0]] + b[1..];
      if k: nat :| SmallerAt(a[1..], b[1..], k) {
        assert a[..k + 1] == [a[0]] + a[1..][..k] && b[..k + 1] == [b[0]] + b[1..][..k];
        assert SmallerAt(a, b, k + 1);
      }
      if k: nat :| SmallerAt(a, b, k) {
        assert a[1..][..k - 1] == a[..k][1..] && b[1..][..k - 1] == b[..k][1..];
        assert SmallerAt(a[1..], b[1..], k - 1);
      }
    }
  }

  lemma {:induction false} AtMostTransitive(a: string, b: string, c: string)
    requires AtMost(a, b) && AtMost(b, c)
    ensures AtMost(a, c)
  {
    if a == [] || b == [] || c == [] || a[0] != b[0] || b[0] != c[0] {
    } else {
      AtMostTransitive(a[1..], b[1..], c[1..]);
    }
  }

  // ---------- comparator-based sorting ----------

  ghost predicate TotalPreorder<T(!new)>(le: (T, T) -> bool) {
    && (forall x, y :: le(x, y) || le(y, x))
    && (forall x, y, z :: le(x, y) && le(y, z) ==> le(x, z))
  }

  ghost predicate Ordered<T>(le: (T, T) -> bool, s: seq<T>) {
    forall i, j :: 0 <= i < j < |s| ==> le(s[i], s[j])
  }

  ghost predicate Distinct<T>(s: seq<T>) {
    forall i, j :: 0 <= i < j < |s| ==> s[i] != s[j]
  }

  function Insert<T>(x: T, s: seq<T>, le: (T, T) -> bool): seq<T> {
    if s == [] then [x]
    else if le(x, s[0]) then [x] + s
    else [s[0]] + Insert(x, s[1..], le)
  }

  /** The stable sort: equal elements keep their input order. */
  function Sort<T>(s: seq<T>, le: (T, T) -> bool): seq<T> {
    if s == [] then [] else Insert(s[0], Sort(s[1..], le), le)
  }

  lemma {:induction false} InsertPermutes<T>(x: T, s: seq<T>, le: (T, T) -> bool)
    ensures multiset(Insert(x, s, le)) == multiset{x} + multiset(s)
    ensures |Insert(x, s, le)| == |s| + 1
  {
    if s == [] || le(x, s[0]) {
    } else {
      InsertPermutes(x, s[1..], le);
      assert s == [s[0]] + s[1..];
    }
  }

  lemma {:induction false} InsertOrders<T(!new)>(x: T, s: seq<T>, le: (T, T) -> bool)
    requires TotalPreorder(le) && Ordered(le, s)
    ensures Ordered(le, Insert(x, s, le))
  {
    if s == [] {
    } else if !le(x, s[0]) {
      InsertOrders(x, s[1..], le);
      InsertPermutes(x, s[1..], le);
      var r := Insert(x, s[1..], le);
      forall y | y in r ensures le(s[0], y) {
        assert y in multiset(r);
        assert y == x || y in s[1..];
      }
    } else {
      forall j | 0 <= j < |s| ensures le(x, s[j]) {
        assert j > 0 ==> le(s[0], s[j]);
      }
    }
  }

  lemma {:induction false} SortPermutes<T>(s: seq<T>, le: (T, T) -> bool)
    ensures multiset(Sort(s, le)) == multiset(s)
    ensures |Sort(s, le)| == |s|
  {
    if s == [] {
    } else {
      SortPermutes(s[1..], le);
      InsertPermutes(s[0], Sort(s[1..], le), le);
      assert s == [s[0]] + s[1..];
    }
  }

  lemma {:induction false} SortOrders<T(!new)>(s: seq<T>, le: (T, T) -> bool)
    requires TotalPreorder(le)
    ensures Ordered(le, Sort(s, le))
  {
    if s == [] {
    } else {
      SortOrders(s[1..], le);
      InsertOrders(s[0], Sort(s[1..], le), le);
    }
  }

  /** Sorting leaves a list that is in order as it is. */
  lemma {:induction false} SortOfOrdered<T>(s: seq<T>, le: (T, T) -> bool)
    requires Ordered(le, s)
    ensures Sort(s, le) == s
  {
    if s == [] {
    } else {
      SortOfOrdered(s[1..], le);
      assert s == [s[0]] + s[1..];
    }
  }

  lemma {:induction false} SortKeepsMembers<T>(s: seq<T>, le: (T, T) -> bool)
    ensures |Sort(s, le)| == |s|
    ensures forall x :: x in Sort(s, le) <==> x in s
  {
    SortPermutes(s, le);
    forall x ensures x in Sort(s, le) <==> x in s {
      assert x in multiset(Sort(s, le)) <==> x in multiset(s);
    }
  }

  lemma {:induction false} MultisetOne<T>(s: seq<T>, x: T)
    requires Distinct(s) && x in s
    ensures multiset(s)[x] == 1
  {
    var i :| 0 <= i < |s| && s[i] == x;
    assert s == s[..i] + [x] + s[i + 1..];
    assert x !in s[..i] && x !in s[i + 1..];
    assert multiset(s) == multiset(s[..i]) + multiset{x} + multiset(s[i + 1..]);
  }

  lemma {:induction false} TwiceCounted<T>(s: seq<T>, i: nat, j: nat)
    requires i < j < |s| && s[i] == s[j]
    ensures multiset(s)[s[j]] >= 2
  {
    assert s == s[..j] + [s[j]] + s[j + 1..];
    assert s[..j][i] == s[j];
    assert s[j] in multiset(s[..j]);
    assert multiset(s) == multiset(s[..j]) + multiset{s[j]} + multiset(s[j + 1..]);
  }

  lemma {:induction false} DistinctFromMultiset<T>(s: seq<T>)
    requires forall x :: multiset(s)[x] <= 1
    ensures Distinct(s)
  {
    forall i, j | 0 <= i < j < |s| ensures s[i] != s[j] {
      if s[i] == s[j] { TwiceCounted(s, i, j); }
    }
  }

  lemma {:induction false} SortKeepsDistinct<T>(s: seq<T>, le: (T, T) -> bool)
    requires Distinct(s)
    ensures Distinct(Sort(s, le))
  {
    SortPermutes(s, le);
    forall x ensures multiset(Sort(s, le))[x] <= 1 {
      if x in s { MultisetOne(s, x); } else { assert x !in multiset(s); }
    }
    DistinctFromMultiset(Sort(s, le));
  }

  /** Two ordered, duplicate-free lists with the same members are one list, when ties are equalities. */
  lemma {:induction false} OrderedListUnique<T>(le: (T, T) -> bool, s: seq<T>, t: seq<T>)
    requires Ordered(le, s) && Ordered(le, t) && Distinct(s) && Distinct(t)
    requires forall x :: x in s <==> x in t
    requires forall x, y :: x in s && y in s && le(x, y) && le(y, x) ==> x == y
    ensures s == t
  {
    assert t != [] ==> t[0] in s;
    if s == [] {
    } else {
      assert s[0] in t;
      assert t[0] in s;
      assert s[0] == t[0];
      forall x ensures x in s[1..] <==> x in t[1..] {
        if x in s[1..] {
          assert x in s && x != s[0];
          var i :| 0 <= i < |t| && t[i] == x;
          assert t[1..][i - 1] == x;
        }
        if x in t[1..] {
          assert x in t && x != t[0];
          var i :| 0 <= i < |s| && s[i] == x;
          assert s[1..][i - 1] == x;
        }
      }
      OrderedListUnique(le, s[1..], t[1..]);
      assert s == [s[0]] + s[1..] && t == [t[0]] + t[1..];
    }
  }

  /** Sorting two duplicate-free lists with the same members gives the same list. */
  lemma {:induction false} SortIsCanonical<T(!new)>(le: (T, T) -> bool, s: seq<T>, t: seq<T>)
    requires TotalPreorder(le) && Distinct(s) && Distinct(t)
    requires forall x :: x in s <==> x in t
    requires forall x, y :: x in s && y in s && le(x, y) && le(y, x) ==> x == y
    ensures Sort(s, le) == Sort(t, le)
  {
    SortOrders(s, le);
    SortOrders(t, le);
    SortKeepsMembers(s, le);
    SortKeepsMembers(t, le);
    SortKeepsDistinct(s, le);
    SortKeepsDistinct(t, le);
    OrderedListUnique(le, Sort(s, le), Sort(t, le));
  }

  lemma {:induction false} AtMostIsTotalPreorder()
    ensures TotalPreorder(AtMost)
  {
    forall x, y ensures AtMost(x, y) || AtMost(y, x) { AtMostTotal(x, y); }
    forall x, y, z | AtMost(x, y) && AtMost(y, z) ensures AtMost(x, z) { AtMostTransitive(x, y, z); }
  }

  // ---------- filtering ----------

  /** `at` lists, ascending, exactly the positions whose element is kept. */
  ghost predicate Picks<T>(s: seq<T>, keep: T -> bool, at: seq<nat>) {
    && (forall k :: 0 <= k < |at| ==> at[k] < |s|)
    && (forall k, m :: 0 <= k < m < |at| ==> at[k] < at[m])
    && forall i: nat :: i < |s| ==> (i in at <==> keep(s[i]))
  }

  function Selected<T>(s: seq<T>, at: seq<nat>): (r: seq<T>)
    requires forall k :: 0 <= k < |at| ==> at[k] < |s|
    ensures |r| == |at| && forall k :: 0 <= k < |at| ==> r[k] == s[at[k]]
  {
    seq(|at|, k requires 0 <= k < |at| => s[at[k]])
  }

  function Shifted(at: seq<nat>): (r: seq<nat>)
    ensures |r| == |at| && forall k :: 0 <= k < |at| ==> r[k] == at[k] + 1
  {
    seq(|at|, k requires 0 <= k < |at| => at[k] + 1)
  }

  lemma {:induction false} PicksNone<T>(keep: T -> bool)
    ensures Picks([], keep, []) && Selected<T>([], []) == []
  {}

  lemma {:induction false} PicksFront<T>(s: seq<T>, keep: T -> bool, rest: seq<nat>)
    requires s != [] && Picks(s[1..], keep, rest)
    ensures Picks(s, keep, (if keep(s[0]) then [0] else []) + Shifted(rest))
  {
    var at := (if keep(s[0]) then [0] else []) + Shifted(rest);
    forall i: nat ensures i in at <==> (i == 0 && keep(s[0])) || (i > 0 && i - 1 in rest) { InShifted(rest, i); }
    forall i: nat | i < |s| ensures i in at <==> keep(s[i]) {
      if i > 0 { assert s[1..][i - 1] == s[i]; }
    }
  }

  lemma {:induction false} SelectedShifted<T>(s: seq<T>, rest: seq<nat>)
    requires s != [] && forall k :: 0 <= k < |rest| ==> rest[k] < |s| - 1
    ensures Selected(s, Shifted(rest)) == Selected(s[1..], rest)
    ensures Selected(s, [0] + Shifted(rest)) == [s[0]] + Selected(s[1..], rest)
  {}

  /** What is picked of a list is its head, if kept, and what is picked of the rest. */
  lemma {:induction false} PicksMore<T>(s: seq<T>, keep: T -> bool, rest: seq<nat>)
    requires s != [] && Picks(s[1..], keep, rest)
    ensures var at := (if keep(s[0]) then [0] else []) + Shifted(rest);
            Picks(s, keep, at) && Selected(s, at) == (if keep(s[0]) then [s[0]] else []) + Selected(s[1..], rest)
  {
    PicksFront(s, keep, rest);
    assert forall k :: 0 <= k < |rest| ==> rest[k] < |s| - 1;
    SelectedShifted(s, rest);
    hide Picks, Selected, Shifted;
    assert [] + Shifted(rest) == Shifted(rest) && [] + Selected(s[1..], rest) == Selected(s[1..], rest);
  }

  lemma {:induction false} InShifted(rest: seq<nat>, i: nat)
    ensures i in Shifted(rest) <==> i > 0 && i - 1 in rest
  {
    if i > 0 && i - 1 in rest {
      var k :| 0 <= k < |rest| && rest[k] == i - 1;
      assert Shifted(rest)[k] == i;
    }
  }

  // ---------- counting ----------

  lemma {:induction false} SubsetSize<T>(a: set<T>, b: set<T>)
    requires a <= b
    ensures |a| <= |b|
  {
    if a == {} {
    } else {
      var x :| x in a;
      SubsetSize(a - {x}, b - {x});
    }
  }

  /** The weights of a list's elements, added up. */
  function Tally<T>(s: seq<T>, weight: T -> nat): nat {
    if s == [] then 0 else Tally(s[..|s| - 1], weight) + weight(s[|s| - 1])
  }

  lemma {:induction false} TallyOfParts<T>(a: seq<T>, b: seq<T>, weight: T -> nat)
    ensures Tally(a + b, weight) == Tally(a, weight) + Tally(b, weight)
    decreases |b|
  {
    if b == [] {
      assert a + b == a;
    } else {
      TallyOfParts(a, b[..|b| - 1], weight);
      assert (a + b)[..|a + b| - 1] == a + b[..|b| - 1];
    }
  }

  lemma {:induction false} TallyWithout<T>(s: seq<T>, k: nat, weight: T -> nat)
    requires k < |s|
    ensures multiset(s[..k] + s[k + 1..]) == multiset(s) - multiset{s[k]}
    ensures Tally(s, weight) == Tally(s[..k] + s[k + 1..], weight) + weight(s[k])
  {
    assert s == (s[..k] + [s[k]]) + s[k + 1..];
    TallyOfParts(s[..k], s[k + 1..], weight);
    TallyOfParts(s[..k] + [s[k]], s[k + 1..], weight);
    assert (s[..k] + [s[k]])[..k] == s[..k];
  }

  /** A tally depends on how often each element occurs, not on where. */
  lemma {:induction false} TallyIsOrderFree<T>(s: seq<T>, t: seq<T>, weight: T -> nat)
    requires multiset(s) == multiset(t)
    ensures Tally(s, weight) == Tally(t, weight)
    decreases |s|
  {
    if s == [] {
      assert |multiset(t)| == 0;
    } else {
      var n := |s| - 1;
      TallyWithout(s, n, weight);
      assert s[..n] + s[n + 1..] == s[..n];
      assert s[n] in multiset(t);
      var k :| 0 <= k < |t| && t[k] == s[n];
      TallyWithout(t, k, weight);
      hide Tally;
      TallyIsOrderFree(s[..n], t[..k] + t[k + 1..], weight);
    }
  }
}
