/**
 What a topic report says, read off the list alone: which documents stand in one candidate, what a
 candidate holds, and in which order. Both passes of `Topics` return such a list.
 */
module TopicListing {
  import opened Ordering
  import opened SetJoin
  import opened Connectivity
  import opened Topics

  // ---------- sorting under a map ----------

  function Mapped<S, T>(s: seq<S>, f: S -> T): (r: seq<T>)
    ensures |r| == |s| && forall i :: 0 <= i < |s| ==> r[i] == f(s[i])
  {
    seq(|s|, i requires 0 <= i < |s| => f(s[i]))
  }

  lemma {:induction false} MappedFront<S, T>(x: S, s: seq<S>, f: S -> T)
    ensures Mapped([x] + s, f) == [f(x)] + Mapped(s, f)
    ensures s != [] ==> Mapped(s, f)[0] == f(s[0]) && Mapped(s, f)[1..] == Mapped(s[1..], f)
  {}

  lemma {:induction false} InsertMapped<S(!new), T>(x: S, s: seq<S>, f: S -> T, le: (S, S) -> bool, under: (T, T) -> bool)
    requires forall a, b :: le(a, b) == under(f(a), f(b))
    ensures Mapped(Insert(x, s, le), f) == Insert(f(x), Mapped(s, f), under)
  {
    MappedFront(x, s, f);
    if s == [] {
      assert Mapped([x], f) == [f(x)];
    } else if le(x, s[0]) {
      hide Mapped;
    } else {
      InsertMapped(x, s[1..], f, le, under);
      MappedFront(s[0], Insert(x, s[1..], le), f);
      hide Mapped;
    }
  }

  lemma {:induction false} SortMapped<S(!new), T>(s: seq<S>, f: S -> T, le: (S, S) -> bool, under: (T, T) -> bool)
    requires forall a, b :: le(a, b) == under(f(a), f(b))
    ensures Mapped(Sort(s, le), f) == Sort(Mapped(s, f), under)
  {
    if s == [] {
    } else {
      SortMapped(s[1..], f, le, under);
      InsertMapped(s[0], Sort(s[1..], le), f, le, under);
      assert Mapped(s, f)[1..] == Mapped(s[1..], f);
    }
  }

  /** Sorted by `le`, and where `le` does not tell two positions apart, ascending. */
  ghost predicate StablyOrdered(le: (nat, nat) -> bool, s: seq<nat>) {
    forall i, j :: 0 <= i < j < |s| ==> le(s[i], s[j]) && (le(s[j], s[i]) ==> s[i] < s[j])
  }

  lemma {:induction false} StablyAfter(x: nat, s: seq<nat>, le: (nat, nat) -> bool)
    requires StablyOrdered(le, s) && forall y :: y in s ==> le(x, y) && (le(y, x) ==> x < y)
    ensures StablyOrdered(le, [x] + s)
  {
    forall i, j | 0 <= i < j < |s| + 1
      ensures le(([x] + s)[i], ([x] + s)[j]) && (le(([x] + s)[j], ([x] + s)[i]) ==> ([x] + s)[i] < ([x] + s)[j])
    {
      assert ([x] + s)[j] == s[j - 1] && s[j - 1] in s;
      if i > 0 { assert ([x] + s)[i] == s[i - 1]; }
    }
  }

  lemma {:induction false} StableTail(s: seq<nat>, le: (nat, nat) -> bool)
    requires StablyOrdered(le, s) && s != []
    ensures StablyOrdered(le, s[1..])
    ensures forall y :: y in s[1..] ==> y in s && le(s[0], y) && (le(y, s[0]) ==> s[0] < y)
  {
    forall i, j | 0 <= i < j < |s[1..]|
      ensures le(s[1..][i], s[1..][j]) && (le(s[1..][j], s[1..][i]) ==> s[1..][i] < s[1..][j])
    {
      assert s[1..][i] == s[i + 1] && s[1..][j] == s[j + 1];
    }
    forall y | y in s[1..] ensures y in s && le(s[0], y) && (le(y, s[0]) ==> s[0] < y) {
      var j :| 0 <= j < |s[1..]| && s[1..][j] == y;
      assert y == s[j + 1];
    }
  }

  lemma {:induction false} InsertStably(x: nat, s: seq<nat>, le: (nat, nat) -> bool)
    requires TotalPreorder(le) && StablyOrdered(le, s) && forall y :: y in s ==> x < y
    ensures StablyOrdered(le, Insert(x, s, le))
  {
    hide StablyOrdered;
    if s == [] {
      OneIsStable(x, le);
    } else {
      StableTail(s, le);
      assert s == [s[0]] + s[1..];
      if le(x, s[0]) {
        forall y | y in s ensures le(x, y) { assert y == s[0] || y in s[1..]; }
        StablyAfter(x, s, le);
      } else {
        InsertStably(x, s[1..], le);
        InsertPermutes(x, s[1..], le);
        forall y | y in Insert(x, s[1..], le) ensures le(s[0], y) && (le(y, s[0]) ==> s[0] < y) {
          assert y in multiset(Insert(x, s[1..], le));
          assert y == x || y in s[1..];
        }
        StablyAfter(s[0], Insert(x, s[1..], le), le);
      }
    }
  }

  lemma {:induction false} OneIsStable(x: nat, le: (nat, nat) -> bool)
    ensures StablyOrdered(le, [x])
  {}

  lemma {:induction false} SortStably(s: seq<nat>, le: (nat, nat) -> bool)
    requires TotalPreorder(le) && forall i, j :: 0 <= i < j < |s| ==> s[i] < s[j]
    ensures StablyOrdered(le, Sort(s, le))
  {
    if s == [] {
    } else {
      SortStably(s[1..], le);
      SortKeepsMembers(s[1..], le);
      InsertStably(s[0], Sort(s[1..], le), le);
    }
  }

  // ---------- the eligible documents ----------

  /** The eligible documents are those of at least twenty tokens, in the order they are listed. */
  lemma {:induction false} EligibleAreLongEnough(documents: seq<Document>) returns (at: seq<nat>)
    ensures Picks(documents, (d: Document) => d.tokenCount >= 20, at) && Eligible(documents) == Selected(documents, at)
  {
    hide Picks, Selected;
    var keep := (d: Document) => d.tokenCount >= 20;
    if documents == [] {
      at := [];
      PicksNone(keep);
    } else {
      var rest := EligibleAreLongEnough(documents[1..]);
      at := (if keep(documents[0]) then [0] else []) + Shifted(rest);
      PicksMore(documents, keep, rest);
    }
  }

  // ---------- the score ----------

  /** Shared over united, and nothing when a side is empty. */
  ghost function Jaccard(a: set<string>, b: set<string>): real {
    if a == {} || b == {} then 0.0 else |a * b| as real / (if |a + b| == 0 then 1 else |a + b|) as real
  }

  /** A pair joins when its score reaches the threshold of `t` millionths. */
  lemma {:induction false} JoinsIffScoreReaches(x: Document, y: Document, t: int)
    ensures Joins(x, y, t) <==> Jaccard(x.terms, y.terms) >= t as real / 1000000.0
  {
    UnionSizeIsUnion(x.terms, y.terms);
    if x.terms != {} && y.terms != {} {
      var shared, union := |x.terms * y.terms|, |x.terms + y.terms|;
      SubsetSize(x.terms, x.terms + y.terms);
      assert union > 0;
      QuotientReaches(shared, union, t);
    }
  }

  lemma {:induction false} QuotientReaches(shared: nat, union: nat, t: int)
    requires union > 0
    ensures 1000000 * shared >= t * union <==> shared as real / union as real >= t as real / 1000000.0
  {
    var q := shared as real / union as real;
    assert q * union as real == shared as real;
    var u := union as real;
    assert (1000000 * shared) as real == 1000000.0 * q * u && (t * union) as real == t as real * u;
    if q * 1000000.0 >= t as real {
      assert q * 1000000.0 * u >= t as real * u;
    } else {
      assert q * 1000000.0 * u < t as real * u;
    }
  }

  // ---------- what the list says ----------

  ghost predicate Ascends(s: seq<nat>) {
    forall i, j :: 0 <= i < j < |s| ==> s[i] < s[j]
  }

  ghost predicate Within(n: nat, group: seq<nat>) {
    forall k :: 0 <= k < |group| ==> group[k] < n
  }

  ghost predicate Somewhere(groups: seq<seq<nat>>, p: nat) {
    exists k :: 0 <= k < |groups| && p in groups[k]
  }

  /** `group` lists a connected class of two or more, each position once. */
  ghost predicate IsClass(features: seq<Document>, t: int, group: seq<nat>) {
    && |group| >= 2 && Distinct(group)
    && Within(|features|, group)
    && forall p: nat, q: nat :: p in group && q < |features| ==>
         (q in group <==> Connected<nat>(JoinEdges(features, t), p, q))
  }

  /** `c` shows the documents of `group`, in that order, under the digest of their sorted ids. */
  ghost predicate Shows(features: seq<Document>, t: int, stableId: (seq<string>, int) -> string, group: seq<nat>, c: TopicCandidate)
    requires Within(|features|, group)
  {
    && |c.memberIds| == |c.memberPaths| == |group| && c.threshold == t
    && (forall k :: 0 <= k < |group| ==>
          c.memberIds[k] == features[group[k]].id && c.memberPaths[k] == features[group[k]].path)
    && exists ids :: Ordered(AtMost, ids) && multiset(ids) == multiset(c.memberIds) && c.candidateId == stableId(ids, t)
  }

  /** By path; documents of one path in the order they came in. */
  ghost predicate ByPath(features: seq<Document>, group: seq<nat>)
    requires Within(|features|, group)
  {
    forall k, m :: 0 <= k < m < |group| ==>
      Before(features[group[k]].path, features[group[m]].path)
      || (features[group[k]].path == features[group[m]].path && group[k] < group[m])
  }

  /** Larger candidates first, then by first path, then by id. */
  predicate NotAfter(c: TopicCandidate, d: TopicCandidate)
    requires c.memberPaths != [] && d.memberPaths != []
  {
    || |c.memberIds| > |d.memberIds|
    || (|c.memberIds| == |d.memberIds|
        && (Before(c.memberPaths[0], d.memberPaths[0])
            || (c.memberPaths[0] == d.memberPaths[0] && AtMost(c.candidateId, d.candidateId))))
  }

  /** The list shows every connected class of two or more, each once, and nothing else. */
  ghost predicate ListsTheClasses(features: seq<Document>, t: int, stableId: (seq<string>, int) -> string,
                                  out: seq<TopicCandidate>, groups: seq<seq<nat>>)
  {
    && |out| == |groups|
    && (forall k :: 0 <= k < |out| ==>
          IsClass(features, t, groups[k]) && ByPath(features, groups[k]) && Shows(features, t, stableId, groups[k], out[k]))
    && (forall k, m, p :: 0 <= k < m < |groups| && p in groups[k] ==> p !in groups[m])
    && (forall p: nat, q: nat :: p < |features| && q < |features| && p != q && Connected<nat>(JoinEdges(features, t), p, q) ==>
          Somewhere(groups, p))
    && forall k, m :: 0 <= k < m < |out| ==> NotAfter(out[k], out[m])
  }

  // ---------- the components ----------

  lemma {:induction false} PeersAre(root: seq<nat>, l: nat, k: nat)
    requires l < |root| && k <= |root|
    ensures forall q :: q in Peers(root, l, k) <==> 0 <= q < k && root[q] == root[l]
    ensures Ascends(Peers(root, l, k))
  {
    if k == 0 {
    } else {
      PeersAre(root, l, k - 1);
      OneMorePeer(Peers(root, l, k - 1), if root[k - 1] == root[l] then [k - 1] else [], k - 1);
    }
  }

  lemma {:induction false} OneMorePeer(earlier: seq<nat>, last: seq<nat>, k: nat)
    requires Ascends(earlier) && (forall q :: q in earlier ==> q < k) && (last == [] || last == [k])
    ensures Ascends(earlier + last) && forall q :: q in earlier + last <==> q in earlier || q in last
  {
    forall i | 0 <= i < |earlier| ensures earlier[i] < k { assert earlier[i] in earlier; }
  }

  /** No two of the positions share a class, and they ascend below `k`. */
  ghost predicate ApartBelow(root: seq<nat>, leaders: seq<nat>, k: nat) {
    && k <= |root| && (forall i :: 0 <= i < |leaders| ==> leaders[i] < k)
    && forall i, j :: 0 <= i < j < |leaders| ==> root[leaders[i]] != root[leaders[j]]
  }

  lemma {:induction false} ApartWithOneMore(root: seq<nat>, leaders: seq<nat>, k: nat)
    requires ApartBelow(root, leaders, k) && k < |root| && forall j :: 0 <= j < k ==> root[j] != root[k]
    ensures ApartBelow(root, leaders + [k], k + 1)
  {}

  lemma {:induction false} LeadersApart(root: seq<nat>, k: nat)
    requires k <= |root|
    ensures ApartBelow(root, Leaders(root, k), k)
  {
    if k == 0 {
    } else {
      LeadersApart(root, k - 1);
      if forall j :: 0 <= j < k - 1 ==> root[j] != root[k - 1] {
        ApartWithOneMore(root, Leaders(root, k - 1), k - 1);
      }
    }
  }

  /** The groups are the classes of `root`, ascending, none shared and none forgotten. */
  ghost predicate AreClasses(root: seq<nat>, groups: seq<seq<nat>>) {
    && (forall k :: 0 <= k < |groups| ==> groups[k] != [] && Ascends(groups[k]))
    && (forall k :: 0 <= k < |groups| ==> Within(|root|, groups[k]))
    && (forall k, p: nat, q: nat :: 0 <= k < |groups| && p in groups[k] && q < |root| ==>
          (q in groups[k] <==> root[q] == root[p]))
    && (forall k, m, p :: 0 <= k < m < |groups| && p in groups[k] ==> p !in groups[m])
    && forall p: nat :: p < |root| ==> Somewhere(groups, p)
  }

  lemma {:induction false} ComponentAt(root: seq<nat>, k: nat)
    requires k < |Leaders(root, |root|)| == |Components(root)|
    ensures Leaders(root, |root|)[k] < |root| && Leaders(root, |root|)[k] in Components(root)[k] && Ascends(Components(root)[k])
    ensures forall q :: q in Components(root)[k] <==> 0 <= q < |root| && root[q] == root[Leaders(root, |root|)[k]]
  {
    var leaders := Leaders(root, |root|);
    assert leaders[k] in leaders;
    PeersAre(root, leaders[k], |root|);
  }

  lemma {:induction false} ComponentsAreClasses(root: seq<nat>)
    ensures AreClasses(root, Components(root))
  {
    var n, leaders, groups := |root|, Leaders(root, |root|), Components(root);
    assert |groups| == |leaders|;
    hide Leaders, Components, Peers;
    LeadersApart(root, n);
    forall k | 0 <= k < |groups|
      ensures leaders[k] < n && leaders[k] in groups[k] && Ascends(groups[k]) && Within(n, groups[k])
      ensures forall q :: q in groups[k] <==> 0 <= q < n && root[q] == root[leaders[k]]
    {
      ComponentAt(root, k);
      forall i | 0 <= i < |groups[k]| ensures groups[k][i] < n { assert groups[k][i] in groups[k]; }
    }
    forall p: nat | p < n ensures Somewhere(groups, p) {
      LeadersCover(root, n, p);
      var k :| 0 <= k < |leaders| && RootsOf(root, leaders)[k] == root[p];
      assert p in groups[k];
    }
  }

  // ---------- from the components to the list ----------

  ghost predicate Apart(groups: seq<seq<nat>>) {
    && Distinct(groups)
    && forall g, h, p :: g in groups && h in groups && p in g && p in h ==> g == h
  }

  /** `groups` are the connected classes of two or more. */
  ghost predicate AreTheClasses(features: seq<Document>, t: int, groups: seq<seq<nat>>) {
    && Apart(groups)
    && (forall g :: g in groups ==> IsClass(features, t, g) && Ascends(g))
    && forall p: nat, q: nat :: p < |features| && q < |features| && p != q && Connected<nat>(JoinEdges(features, t), p, q) ==>
         Somewhere(groups, p)
  }

  function Big(groups: seq<seq<nat>>): (big: seq<seq<nat>>)
    ensures forall g :: g in big <==> g in groups && |g| >= 2
  {
    if groups == [] then [] else (if |groups[0]| < 2 then [] else [groups[0]]) + Big(groups[1..])
  }

  lemma {:induction false} BigDistinct(groups: seq<seq<nat>>)
    requires Distinct(groups)
    ensures Distinct(Big(groups))
  {
    if groups == [] {
    } else {
      BigDistinct(groups[1..]);
      assert groups[0] !in groups[1..];
    }
  }

  lemma {:induction false} SharedNowhere(root: seq<nat>, groups: seq<seq<nat>>, i: nat, j: nat, p: nat)
    requires AreClasses(root, groups) && i < |groups| && j < |groups| && p in groups[i] && p in groups[j]
    ensures i == j
  {}

  lemma {:induction false} ClassesApart(root: seq<nat>, groups: seq<seq<nat>>)
    requires AreClasses(root, groups)
    ensures Apart(groups)
  {
    forall i, j | 0 <= i < j < |groups| ensures groups[i] != groups[j] {
      assert groups[i][0] in groups[i];
    }
    forall g, h, p | g in groups && h in groups && p in g && p in h ensures g == h {
      var i :| 0 <= i < |groups| && groups[i] == g;
      var j :| 0 <= j < |groups| && groups[j] == h;
      SharedNowhere(root, groups, i, j, p);
    }
  }

  lemma {:induction false} BigAreTheClasses(features: seq<Document>, t: int, root: seq<nat>, groups: seq<seq<nat>>)
    requires ComponentsOf(features, t, root) && AreClasses(root, groups)
    ensures AreTheClasses(features, t, Big(groups))
  {
    hide JoinEdges, Connected;
    ClassesApart(root, groups);
    BigDistinct(groups);
    var big := Big(groups);
    forall g | g in big ensures IsClass(features, t, g) && Ascends(g) {
      var k :| 0 <= k < |groups| && groups[k] == g;
      forall p: nat, q: nat | p in g && q < |features| ensures q in g <==> Connected<nat>(JoinEdges(features, t), p, q) {
        assert p < |root| && (root[p] == root[q] <==> Connected<nat>(JoinEdges(features, t), p, q));
      }
    }
    forall p: nat, q: nat | p < |features| && q < |features| && p != q && Connected<nat>(JoinEdges(features, t), p, q)
      ensures Somewhere(big, p)
    {
      assert Somewhere(groups, p);
      var k :| 0 <= k < |groups| && p in groups[k];
      TwoMembers(groups[k], p, q);
      assert groups[k] in big;
    }
  }

  lemma {:induction false} TwoMembers(g: seq<nat>, p: nat, q: nat)
    requires p in g && q in g && p != q
    ensures |g| >= 2
  {}

  function At(features: seq<Document>, p: nat): Document {
    if p < |features| then features[p] else Document("", "", 0, {}, {})
  }

  function PathOrder(features: seq<Document>): (nat, nat) -> bool {
    (p: nat, q: nat) => PathAtMost(At(features, p), At(features, q))
  }

  function PathSorted(features: seq<Document>, g: seq<nat>): seq<nat> {
    Sort(g, PathOrder(features))
  }

  lemma {:induction false} PathOrderIsTotal(features: seq<Document>)
    ensures TotalPreorder(PathOrder(features))
  {
    AtMostIsTotalPreorder();
  }

  lemma {:induction false} SortedClass(features: seq<Document>, t: int, g: seq<nat>)
    requires IsClass(features, t, g) && Ascends(g)
    ensures IsClass(features, t, PathSorted(features, g)) && ByPath(features, PathSorted(features, g))
  {
    hide JoinEdges, Connected, Sort;
    var le, s := PathOrder(features), PathSorted(features, g);
    PathOrderIsTotal(features);
    SortKeepsMembers(g, le);
    SortKeepsDistinct(g, le);
    SortStably(g, le);
    forall k | 0 <= k < |s| ensures s[k] < |features| { assert s[k] in g; }
    forall k, m | 0 <= k < m < |s|
      ensures Before(features[s[k]].path, features[s[m]].path) || (features[s[k]].path == features[s[m]].path && s[k] < s[m])
    {
      assert le(s[k], s[m]) && (le(s[m], s[k]) ==> s[k] < s[m]);
    }
  }

  lemma {:induction false} MembersMapped(features: seq<Document>, g: seq<nat>)
    ensures seq(|g|, i requires 0 <= i < |g| => if g[i] < |features| then features[g[i]] else Document("", "", 0, {}, {}))
            == Mapped(g, (p: nat) => At(features, p))
  {}

  lemma {:induction false} CandidateShows(features: seq<Document>, t: int, stableId: (seq<string>, int) -> string, g: seq<nat>)
    requires IsClass(features, t, g)
    ensures Within(|features|, PathSorted(features, g))
    ensures Shows(features, t, stableId, PathSorted(features, g), BuildCandidate(features, g, t, stableId))
  {
    hide JoinEdges, Connected;
    var s, c := PathSorted(features, g), BuildCandidate(features, g, t, stableId);
    var at := (p: nat) => At(features, p);
    SortMapped(g, at, PathOrder(features), PathAtMost);
    SortKeepsMembers(g, PathOrder(features));
    forall k | 0 <= k < |s| ensures s[k] < |features| { assert s[k] in g; }
    MembersMapped(features, g);
    SortPermutes(c.memberIds, AtMost);
    AtMostIsTotalPreorder();
    SortOrders(c.memberIds, AtMost);
  }

  function Built(features: seq<Document>, t: int, stableId: (seq<string>, int) -> string): seq<nat> -> TopicCandidate {
    g => BuildCandidate(features, g, t, stableId)
  }

  function BuiltOrder(features: seq<Document>, t: int, stableId: (seq<string>, int) -> string): (seq<nat>, seq<nat>) -> bool {
    (g, h) => CandidateAtMost(BuildCandidate(features, g, t, stableId), BuildCandidate(features, h, t, stableId))
  }

  lemma {:induction false} BuildAllMapped(features: seq<Document>, groups: seq<seq<nat>>, t: int, stableId: (seq<string>, int) -> string)
    ensures BuildAll(features, groups, t, stableId) == Mapped(Big(groups), Built(features, t, stableId))
  {
    hide BuildCandidate;
    if groups == [] {
    } else {
      BuildAllMapped(features, groups[1..], t, stableId);
    }
  }

  lemma {:induction false} BuiltOrderIsTotal(features: seq<Document>, t: int, stableId: (seq<string>, int) -> string)
    ensures TotalPreorder(BuiltOrder(features, t, stableId))
  {
    hide BuildCandidate;
    AtMostIsTotalPreorder();
    CandidateOrderIsTotal();
  }

  lemma {:induction false} CandidateOrderIsTotal()
    ensures TotalPreorder(CandidateAtMost)
  {
    AtMostIsTotalPreorder();
    forall x, y | AtMost(x, y) && AtMost(y, x) ensures x == y { AtMostTotal(x, y); }
  }

  /** Whatever meets the definition of the report lists the connected classes of two or more eligible documents. */
  lemma {:induction false} ReportListsTheClasses(documents: seq<Document>, t: int, stableId: (seq<string>, int) -> string,
                                                 out: seq<TopicCandidate>)
    returns (groups: seq<seq<nat>>)
    requires IsTopicReport(documents, t, stableId, out)
    ensures ListsTheClasses(Eligible(documents), t, stableId, out, groups)
  {
    hide ComponentsOf, Components, BuildAll, BuildCandidate, Sort, Eligible, AreClasses, AreTheClasses, Big;
    var features := Eligible(documents);
    var root :| ComponentsOf(features, t, root) && out == Report(features, Components(root), t, stableId);
    ComponentsAreClasses(root);
    BigAreTheClasses(features, t, root, Components(root));
    BuildAllMapped(features, Components(root), t, stableId);
    var big := Big(Components(root));
    groups := ListInOrder(features, t, stableId, big, out);
  }

  // ---------- by id ----------

  ghost predicate DistinctIds(features: seq<Document>) {
    forall p, q :: 0 <= p < q < |features| ==> features[p].id != features[q].id
  }

  ghost predicate ListedTogether(out: seq<TopicCandidate>, a: string, b: string) {
    exists k :: 0 <= k < |out| && a in out[k].memberIds && b in out[k].memberIds
  }

  lemma {:induction false} ShownMember(features: seq<Document>, t: int, stableId: (seq<string>, int) -> string, g: seq<nat>,
                                       c: TopicCandidate, p: nat)
    requires DistinctIds(features) && Within(|features|, g) && Shows(features, t, stableId, g, c) && p < |features|
    ensures features[p].id in c.memberIds <==> p in g
  {
    if features[p].id in c.memberIds {
      var k :| 0 <= k < |g| && c.memberIds[k] == features[p].id;
      assert g[k] in g;
    }
    if p in g {
      var k :| 0 <= k < |g| && g[k] == p;
      assert c.memberIds[k] == features[p].id;
    }
  }

  /** Two eligible documents stand in one candidate exactly when joining pairs connect them. */
  lemma {:induction false} ListedTogetherIffConnected(documents: seq<Document>, t: int, stableId: (seq<string>, int) -> string,
                                                      out: seq<TopicCandidate>, p: nat, q: nat)
    requires IsTopicReport(documents, t, stableId, out) && DistinctIds(Eligible(documents))
    requires p < |Eligible(documents)| && q < |Eligible(documents)| && p != q
    ensures ListedTogether(out, Eligible(documents)[p].id, Eligible(documents)[q].id)
            <==> Connected<nat>(JoinEdges(Eligible(documents), t), p, q)
  {
    hide IsTopicReport, Eligible, JoinEdges, Connected, Shows, ByPath, DistinctIds, NotAfter;
    var features := Eligible(documents);
    var groups := ReportListsTheClasses(documents, t, stableId, out);
    forall k | 0 <= k < |out|
      ensures features[p].id in out[k].memberIds <==> p in groups[k]
      ensures features[q].id in out[k].memberIds <==> q in groups[k]
    {
      ShownMember(features, t, stableId, groups[k], out[k], p);
      ShownMember(features, t, stableId, groups[k], out[k], q);
    }
    if Connected<nat>(JoinEdges(features, t), p, q) {
      assert Somewhere(groups, p);
      var k :| 0 <= k < |groups| && p in groups[k];
      assert IsClass(features, t, groups[k]) && q in groups[k];
    }
  }

  /** No id stands in two candidates, or twice in one. */
  lemma {:induction false} ListedOnce(documents: seq<Document>, t: int, stableId: (seq<string>, int) -> string,
                                      out: seq<TopicCandidate>, k: nat, i: nat, m: nat, j: nat)
    requires IsTopicReport(documents, t, stableId, out) && DistinctIds(Eligible(documents))
    requires k < |out| && m < |out| && i < |out[k].memberIds| && j < |out[m].memberIds| && (k, i) != (m, j)
    ensures out[k].memberIds[i] != out[m].memberIds[j]
  {
    hide IsTopicReport, Eligible, JoinEdges, Connected, ByPath, NotAfter;
    var features := Eligible(documents);
    var groups := ReportListsTheClasses(documents, t, stableId, out);
    var p, q := groups[k][i], groups[m][j];
    assert p in groups[k] && q in groups[m];
    assert p != q;
    assert features[p].id != features[q].id;
  }

  lemma {:induction false} ListInOrder(features: seq<Document>, t: int, stableId: (seq<string>, int) -> string, big: seq<seq<nat>>,
                                       out: seq<TopicCandidate>)
    returns (groups: seq<seq<nat>>)
    requires AreTheClasses(features, t, big) && out == Sort(Mapped(big, Built(features, t, stableId)), CandidateAtMost)
    ensures ListsTheClasses(features, t, stableId, out, groups)
  {
    hide BuildCandidate, Sort, IsClass, Shows, ByPath, NotAfter, Connected, JoinEdges, PathSorted;
    var le := BuiltOrder(features, t, stableId);
    var sorted := Sort(big, le);
    SortMapped(big, Built(features, t, stableId), le, CandidateAtMost);
    BuiltOrderIsTotal(features, t, stableId);
    SortOrders(big, le);
    SortKeepsMembers(big, le);
    SortKeepsDistinct(big, le);
    groups := Mapped(sorted, (g: seq<nat>) => PathSorted(features, g));
    forall k | 0 <= k < |out|
      ensures sorted[k] in big && (forall p :: p in groups[k] <==> p in sorted[k])
      ensures IsClass(features, t, groups[k]) && Within(|features|, groups[k])
      ensures ByPath(features, groups[k]) && Shows(features, t, stableId, groups[k], out[k])
      ensures out[k].memberPaths != []
    {
      ShownClass(features, t, stableId, sorted[k]);
    }
    forall k, m, p | 0 <= k < m < |groups| && p in groups[k] ensures p !in groups[m] {
      assert sorted[k] != sorted[m];
    }
    forall p: nat, q: nat | p < |features| && q < |features| && p != q && Connected<nat>(JoinEdges(features, t), p, q)
      ensures Somewhere(groups, p)
    {
      assert Somewhere(big, p);
      var g :| g in big && p in g;
      var k :| 0 <= k < |sorted| && sorted[k] == g;
      assert p in groups[k];
    }
    forall k, m | 0 <= k < m < |out| ensures NotAfter(out[k], out[m]) {
      assert le(sorted[k], sorted[m]);
      AtMostNotAfter(out[k], out[m]);
    }
  }

  lemma {:induction false} ShownClass(features: seq<Document>, t: int, stableId: (seq<string>, int) -> string, g: seq<nat>)
    requires IsClass(features, t, g) && Ascends(g)
    ensures var s, c := PathSorted(features, g), BuildCandidate(features, g, t, stableId);
            && IsClass(features, t, s) && Within(|features|, s) && ByPath(features, s) && Shows(features, t, stableId, s, c)
            && (forall p :: p in s <==> p in g) && c.memberPaths != []
  {
    hide BuildCandidate, Connected, JoinEdges, Sort, ByPath;
    SortedClass(features, t, g);
    CandidateShows(features, t, stableId, g);
    SortKeepsMembers(g, PathOrder(features));
  }

  lemma {:induction false} AtMostNotAfter(c: TopicCandidate, d: TopicCandidate)
    requires c.memberPaths != [] && d.memberPaths != [] && CandidateAtMost(c, d)
    ensures NotAfter(c, d)
  {}
}
