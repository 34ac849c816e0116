/**
 The lexical topic pass of src/corpus_candidates.ts: an inverted index over prefixes driving
 union-find, against the all-pairs pass beside it. `t` is the canonical threshold in micro-units.
 */
module Topics {
  import opened Ordering
  import opened SetJoin
  import opened Connectivity
  import opened DisjointSets

  const TOPIC_UNIT: nat := 1_000_000
  const TOPIC_MIN_TOKENS: nat := 20

  datatype Document = Document(
    id: string,
    path: string,
    tokenCount: nat,
    vocabulary: set<string>,
    terms: set<string>)

  datatype TopicCandidate = TopicCandidate(
    candidateId: string,
    threshold: int,
    memberIds: seq<string>,
    memberPaths: seq<string>)

  // ---------- what the pass means ----------

  /** `jaccardOfSets(x, y) >= t`; the score is zero as soon as either set is empty. */
  predicate Joins(x: Document, y: Document, t: int) {
    if x.terms == {} || y.terms == {} then 0 >= t
    else Reaches(t, TOPIC_UNIT, x.terms, y.terms)
  }

  function Eligible(documents: seq<Document>): seq<Document> {
    if documents == [] then []
    else (if documents[0].tokenCount >= TOPIC_MIN_TOKENS then [documents[0]] else []) + Eligible(documents[1..])
  }

  /** Every pair of eligible documents that joins, as edges between positions. */
  ghost function JoinEdges(features: seq<Document>, t: int): set<Edge> {
    set i: nat, j: nat | i < |features| && j < |features| && i != j && Joins(features[i], features[j], t) :: (i, j)
  }

  lemma {:induction false} JoinsSymmetric(x: Document, y: Document, t: int)
    ensures Joins(x, y, t) == Joins(y, x, t)
  {
    UnionSizeIsUnion(x.terms, y.terms);
  }

  // ---------- components, in the order the report lists them ----------

  /** Positions below `k` sharing a class with `l`, ascending. */
  function Peers(root: seq<nat>, l: nat, k: nat): seq<nat>
    requires l < |root| && k <= |root|
  {
    if k == 0 then []
    else Peers(root, l, k - 1) + (if root[k - 1] == root[l] then [k - 1] else [])
  }

  /** Positions below `k` that are the first of their class. */
  function Leaders(root: seq<nat>, k: nat): (leaders: seq<nat>)
    requires k <= |root|
    ensures forall l :: l in leaders ==> l < k
  {
    if k == 0 then []
    else if exists j :: 0 <= j < k - 1 && root[j] == root[k - 1] then Leaders(root, k - 1)
    else Leaders(root, k - 1) + [k - 1]
  }

  function Components(root: seq<nat>): seq<seq<nat>> {
    var leaders := Leaders(root, |root|);
    seq(|leaders|, i requires 0 <= i < |leaders| => assert leaders[i] in leaders; Peers(root, leaders[i], |root|))
  }

  ghost predicate SamePartition(root: seq<nat>, other: seq<nat>) {
    && |root| == |other|
    && forall i, j :: 0 <= i < |root| && 0 <= j < |root| ==> (root[i] == root[j] <==> other[i] == other[j])
  }

  lemma {:induction false} PeersFollowPartition(root: seq<nat>, other: seq<nat>, l: nat, k: nat)
    requires SamePartition(root, other) && l < |root| && k <= |root|
    ensures Peers(root, l, k) == Peers(other, l, k)
  {
    if k == 0 {
    } else {
      PeersFollowPartition(root, other, l, k - 1);
    }
  }

  lemma {:induction false} LeadersFollowPartition(root: seq<nat>, other: seq<nat>, k: nat)
    requires SamePartition(root, other) && k <= |root|
    ensures Leaders(root, k) == Leaders(other, k)
  {
    if k == 0 {
    } else {
      LeadersFollowPartition(root, other, k - 1);
    }
  }

  /** The component lists depend on the partition alone, not on which member became the root. */
  lemma {:induction false} ComponentsFollowPartition(root: seq<nat>, other: seq<nat>)
    requires SamePartition(root, other)
    ensures Components(root) == Components(other)
  {
    LeadersFollowPartition(root, other, |root|);
    var leaders := Leaders(root, |root|);
    forall i | 0 <= i < |leaders| ensures Components(root)[i] == Components(other)[i] {
      assert leaders[i] in leaders;
      PeersFollowPartition(root, other, leaders[i], |root|);
    }
  }

  // ---------- the report ----------

  predicate PathAtMost(x: Document, y: Document) {
    AtMost(x.path, y.path)
  }

  /** One candidate from its members; `stableId` stands for the identity hash. */
  function BuildCandidate(features: seq<Document>, group: seq<nat>, t: int, stableId: (seq<string>, int) -> string)
    : TopicCandidate
  {
    var members := seq(|group|, i requires 0 <= i < |group| =>
                         if group[i] < |features| then features[group[i]] else Document("", "", 0, {}, {}));
    var ordered := Sort(members, PathAtMost);
    var ids := seq(|ordered|, i requires 0 <= i < |ordered| => ordered[i].id);
    TopicCandidate(stableId(Sort(ids, AtMost), t), t, ids,
                   seq(|ordered|, i requires 0 <= i < |ordered| => ordered[i].path))
  }

  predicate CandidateAtMost(c: TopicCandidate, d: TopicCandidate) {
    var pc := if c.memberPaths == [] then "" else c.memberPaths[0];
    var pd := if d.memberPaths == [] then "" else d.memberPaths[0];
    if |c.memberIds| != |d.memberIds| then |c.memberIds| > |d.memberIds|
    else if pc != pd then AtMost(pc, pd)
    else AtMost(c.candidateId, d.candidateId)
  }

  function BuildAll(features: seq<Document>, groups: seq<seq<nat>>, t: int, stableId: (seq<string>, int) -> string)
    : seq<TopicCandidate>
  {
    if groups == [] then []
    else (if |groups[0]| < 2 then [] else [BuildCandidate(features, groups[0], t, stableId)])
         + BuildAll(features, groups[1..], t, stableId)
  }

  function Report(features: seq<Document>, groups: seq<seq<nat>>, t: int, stableId: (seq<string>, int) -> string)
    : seq<TopicCandidate>
  {
    Sort(BuildAll(features, groups, t, stableId), CandidateAtMost)
  }

  /** `root` separates the eligible documents exactly as connectivity through joining pairs does. */
  ghost predicate ComponentsOf(features: seq<Document>, t: int, root: seq<nat>) {
    && |root| == |features|
    && forall i: nat, j: nat :: i < |root| && j < |root| ==>
         (root[i] == root[j] <==> Connected<nat>(JoinEdges(features, t), i, j))
  }

  /** The report lists the connected groups of two or more eligible documents. */
  ghost predicate IsTopicReport(documents: seq<Document>, t: int, stableId: (seq<string>, int) -> string,
                                out: seq<TopicCandidate>)
  {
    exists root :: ComponentsOf(Eligible(documents), t, root)
                   && out == Report(Eligible(documents), Components(root), t, stableId)
  }

  /** There is one report: any two passes meeting the definition return the same list. */
  lemma {:induction false} TopicReportUnique(documents: seq<Document>, t: int, stableId: (seq<string>, int) -> string,
                          indexed: seq<TopicCandidate>, exhaustive: seq<TopicCandidate>)
    requires IsTopicReport(documents, t, stableId, indexed)
    requires IsTopicReport(documents, t, stableId, exhaustive)
    ensures indexed == exhaustive
  {
    var features := Eligible(documents);
    var root :| ComponentsOf(features, t, root) && indexed == Report(features, Components(root), t, stableId);
    var other :| ComponentsOf(features, t, other) && exhaustive == Report(features, Components(other), t, stableId);
    forall i, j | 0 <= i < |root| && 0 <= j < |root|
      ensures root[i] == root[j] <==> other[i] == other[j]
    {
      assert root[i] == root[j] <==> Connected<nat>(JoinEdges(features, t), i, j);
      assert other[i] == other[j] <==> Connected<nat>(JoinEdges(features, t), i, j);
    }
    ComponentsFollowPartition(root, other);
  }

  // ---------- collecting components from the structure ----------

  ghost function RootsOf(root: seq<nat>, leaders: seq<nat>): seq<nat>
    requires forall l :: l in leaders ==> l < |root|
  {
    seq(|leaders|, i requires 0 <= i < |leaders| => assert leaders[i] in leaders; root[leaders[i]])
  }

  lemma {:induction false} LeadersCover(root: seq<nat>, k: nat, j: nat)
    requires j < k <= |root|
    ensures root[j] in RootsOf(root, Leaders(root, k))
  {
    var prev := Leaders(root, k - 1);
    if exists m :: 0 <= m < k - 1 && root[m] == root[k - 1] {
      var m :| 0 <= m < k - 1 && root[m] == root[k - 1];
      LeadersCover(root, k - 1, if j == k - 1 then m else j);
    } else if j == k - 1 {
      assert RootsOf(root, prev + [j])[|prev|] == root[j];
    } else {
      LeadersCover(root, k - 1, j);
      assert RootsOf(root, Leaders(root, k)) == RootsOf(root, prev) + [root[k - 1]];
    }
  }

  lemma {:induction false} LeadersMeet(root: seq<nat>, k: nat, r: nat)
    requires k <= |root| && r in RootsOf(root, Leaders(root, k))
    ensures exists j :: 0 <= j < k && root[j] == r
  {
    var leaders := Leaders(root, k);
    var i :| 0 <= i < |leaders| && RootsOf(root, leaders)[i] == r;
    assert leaders[i] in leaders;
  }

  lemma {:induction false} NoPeersBelow(root: seq<nat>, l: nat, k: nat)
    requires l < |root| && k <= |root| && forall j :: 0 <= j < k ==> root[j] != root[l]
    ensures Peers(root, l, k) == []
  {
    if k == 0 {
    } else {
      NoPeersBelow(root, l, k - 1);
    }
  }

  /** The insertion-ordered map from root to bucket, as keys in first-seen order beside the buckets. */
  ghost predicate Collected(root: seq<nat>, k: nat, keys: seq<nat>, buckets: map<nat, seq<nat>>) {
    && k <= |root|
    && keys == RootsOf(root, Leaders(root, k))
    && (forall r :: r in keys <==> r in buckets)
    && forall l: nat :: l < |root| && root[l] in buckets ==> buckets[root[l]] == Peers(root, l, k)
  }

  lemma {:induction false} CollectKnown(root: seq<nat>, k: nat, keys: seq<nat>, buckets: map<nat, seq<nat>>)
    requires Collected(root, k, keys, buckets) && k < |root| && root[k] in buckets
    ensures Collected(root, k + 1, keys, buckets[root[k] := buckets[root[k]] + [k]])
  {
    LeadersMeet(root, k, root[k]);
    assert Leaders(root, k + 1) == Leaders(root, k);
  }

  lemma {:induction false} FirstPeer(root: seq<nat>, l: nat, k: nat)
    requires l < |root| && k < |root| && root[l] == root[k] && forall j :: 0 <= j < k ==> root[j] != root[k]
    ensures Peers(root, l, k + 1) == [k]
  {
    NoPeersBelow(root, l, k);
  }

  lemma {:induction false} NewLeader(root: seq<nat>, k: nat)
    requires k < |root| && root[k] !in RootsOf(root, Leaders(root, k))
    ensures RootsOf(root, Leaders(root, k + 1)) == RootsOf(root, Leaders(root, k)) + [root[k]]
    ensures forall l: nat :: l < |root| && root[l] == root[k] ==> Peers(root, l, k + 1) == [k]
  {
    hide Peers;
    var leaders := Leaders(root, k);
    forall j | 0 <= j < k ensures root[j] != root[k] {
      LeadersCover(root, k, j);
    }
    assert Leaders(root, k + 1) == leaders + [k];
    assert RootsOf(root, leaders + [k]) == RootsOf(root, leaders) + [root[k]];
    forall l: nat | l < |root| && root[l] == root[k] ensures Peers(root, l, k + 1) == [k] {
      FirstPeer(root, l, k);
    }
  }

  lemma {:induction false} CollectNew(root: seq<nat>, k: nat, keys: seq<nat>, buckets: map<nat, seq<nat>>)
    requires Collected(root, k, keys, buckets) && k < |root| && root[k] !in buckets
    ensures Collected(root, k + 1, keys + [root[k]], buckets[root[k] := [k]])
  {
    hide Leaders, RootsOf;
    NewLeader(root, k);
  }

  lemma {:induction false} CollectOne(root: seq<nat>, k: nat, keys: seq<nat>, buckets: map<nat, seq<nat>>)
    requires Collected(root, k, keys, buckets) && k < |root|
    ensures root[k] in buckets ==> Collected(root, k + 1, keys, buckets[root[k] := buckets[root[k]] + [k]])
    ensures root[k] !in buckets ==> Collected(root, k + 1, keys + [root[k]], buckets[root[k] := [k]])
  {
    hide Leaders, RootsOf, Peers;
    if root[k] in buckets { CollectKnown(root, k, keys, buckets); } else { CollectNew(root, k, keys, buckets); }
  }

  method CollectComponents(sets: Partition) returns (groups: seq<seq<nat>>)
    requires sets.Valid()
    modifies sets.parent
    ensures sets.Valid() && groups == Components(sets.root)
  {
    hide Forest, Collected, RootsOf;
    var n := sets.parent.Length;
    CollectNone(sets.root);
    var keys: seq<nat>, buckets: map<nat, seq<nat>> := [], map[];
    var index: nat := 0;
    while index < n
      invariant sets.Valid() && index <= n
      invariant Collected(sets.root, index, keys, buckets)
    {
      var r := sets.Find(index);
      CollectOne(sets.root, index, keys, buckets);
      assert index < |sets.root|;
      if r in buckets {
        buckets := buckets[r := buckets[r] + [index]];
      } else {
        keys, buckets := keys + [r], buckets[r := [index]];
      }
      index := index + 1;
    }
    CollectedAll(sets.root, keys, buckets);
    groups := seq(|keys|, i requires 0 <= i < |keys| => if keys[i] in buckets then buckets[keys[i]] else []);
  }

  lemma {:induction false} CollectNone(root: seq<nat>)
    ensures Collected(root, 0, [], map[])
  {
    assert Leaders(root, 0) == [];
  }

  lemma {:induction false} CollectedAll(root: seq<nat>, keys: seq<nat>, buckets: map<nat, seq<nat>>)
    requires Collected(root, |root|, keys, buckets)
    ensures Components(root)
            == seq(|keys|, i requires 0 <= i < |keys| => if keys[i] in buckets then buckets[keys[i]] else [])
  {
    var leaders := Leaders(root, |root|);
    forall i | 0 <= i < |keys|
      ensures keys[i] in buckets && buckets[keys[i]] == Components(root)[i]
    {
      assert leaders[i] in leaders && keys[i] == root[leaders[i]] && keys[i] in keys;
    }
  }

  // ---------- the exhaustive pass ----------

  lemma {:induction false} AllConnectedAtZero(features: seq<Document>, t: int)
    requires t <= 0
    ensures forall i: nat, j: nat :: i < |features| && j < |features| ==> Connected<nat>(JoinEdges(features, t), i, j)
  {
    forall i: nat, j: nat | i < |features| && j < |features| ensures Connected<nat>(JoinEdges(features, t), i, j) {
      if i == j {
        ConnectedRefl<nat>(JoinEdges(features, t), i);
      } else {
        UnionSizeIsUnion(features[i].terms, features[j].terms);
        assert t * UnionSize(features[i].terms, features[j].terms) <= 0;
        EdgeConnects<nat>(JoinEdges(features, t), (i, j));
      }
    }
  }

  lemma {:induction false} ZeroThresholdJoinsAll(documents: seq<Document>, t: int, stableId: (seq<string>, int) -> string)
    requires t <= 0 && |Eligible(documents)| >= 2
    ensures IsTopicReport(documents, t, stableId,
              [BuildCandidate(Eligible(documents), Identity(|Eligible(documents)|), t, stableId)])
  {
    var features := Eligible(documents);
    var n := |features|;
    var root: seq<nat> := seq(n, _ => 0);
    AllConnectedAtZero(features, t);
    assert ComponentsOf(features, t, root) by { hide JoinEdges; }
    OneClass(root, n);
    hide ComponentsOf, JoinEdges, Joins, Connected;
    assert Components(root) == [Identity(n)];
    var only := BuildCandidate(features, Identity(n), t, stableId);
    assert BuildAll(features, [Identity(n)], t, stableId) == [only] + BuildAll(features, [], t, stableId);
    assert Sort([only], CandidateAtMost) == [only];
  }

  lemma {:induction false} OneClass(root: seq<nat>, k: nat)
    requires 0 < k <= |root| && forall i :: 0 <= i < |root| ==> root[i] == 0
    ensures Leaders(root, k) == [0] && Peers(root, 0, k) == Identity(k)
  {
    if k > 1 {
      OneClass(root, k - 1);
      assert root[0] == root[k - 1];
      assert Identity(k) == Identity(k - 1) + [k - 1];
    } else {
      assert Peers(root, 0, 0) == [];
    }
  }

  lemma {:induction false} TooFewToGroup(documents: seq<Document>, t: int, stableId: (seq<string>, int) -> string)
    requires |Eligible(documents)| < 2
    ensures IsTopicReport(documents, t, stableId, [])
  {
    var features := Eligible(documents);
    var root := Identity(|features|);
    forall i: nat, j: nat | i < |root| && j < |root| ensures Connected<nat>(JoinEdges(features, t), i, j) {
      ConnectedRefl<nat>(JoinEdges(features, t), i);
    }
    assert BuildAll(features, Components(root), t, stableId) == [] by {
      if |features| == 1 {
        assert Leaders(root, 0) == [] && Peers(root, 0, 0) == [];
        assert Leaders(root, 1) == [0] && Peers(root, 0, 1) == [0];
        assert Components(root) == [[0]];
        assert BuildAll(features, [[0]], t, stableId) == [];
      }
    }
  }

  /** The structure's roots are what uniting `united` gives, and only joining edges were united. */
  ghost predicate UnitedBy(features: seq<Document>, t: int, root: seq<nat>, united: seq<Edge>) {
    && InRange(|features|, united)
    && root == MergeAll(|features|, united)
    && EdgeSet(united) <= JoinEdges(features, t)
  }

  ghost predicate Keeps(root: seq<nat>, later: seq<nat>) {
    && |root| == |later|
    && forall i, j :: 0 <= i < |root| && 0 <= j < |root| && root[i] == root[j] ==> later[i] == later[j]
  }

  lemma {:induction false} NothingUnited(features: seq<Document>, t: int)
    ensures UnitedBy(features, t, Identity(|features|), [])
  {}

  lemma {:induction false} UniteJoining(features: seq<Document>, t: int, root: seq<nat>, united: seq<Edge>, i: nat, j: nat)
    requires UnitedBy(features, t, root, united) && i < |features| && j < |features| && i != j
    requires Joins(features[i], features[j], t)
    ensures |root| == |features| && UnitedBy(features, t, Merge(root, i, j), united + [(i, j)])
    ensures Keeps(root, Merge(root, i, j)) && Merge(root, i, j)[i] == Merge(root, i, j)[j]
  {
    hide Joins;
    assert (united + [(i, j)])[..|united|] == united;
    assert EdgeSet(united + [(i, j)]) == EdgeSet(united) + {(i, j)};
  }

  /** Uniting only along joining edges, and enough of them, yields the components. */
  lemma {:induction false} UnitedIsComponents(features: seq<Document>, t: int, root: seq<nat>, united: seq<Edge>)
    requires UnitedBy(features, t, root, united)
    requires forall i: nat, j: nat :: i < |features| && j < |features| && i != j && Joins(features[i], features[j], t) ==>
               root[i] == root[j]
    ensures ComponentsOf(features, t, root)
  {
    hide Joins;
    forall i: nat, j: nat | i < |root| && j < |root|
      ensures root[i] == root[j] <==> Connected<nat>(JoinEdges(features, t), i, j)
    {
      UnitingEnoughEdges(|features|, united, JoinEdges(features, t), i, j);
    }
  }

  /** Every joining pair the double loop has passed has one root. */
  ghost predicate JoinedBefore(features: seq<Document>, t: int, root: seq<nat>, i: nat, j: nat) {
    && |root| == |features|
    && forall k: nat, m: nat :: (k < i || (k == i && m < j)) && k < m < |features| && Joins(features[k], features[m], t) ==>
         root[k] == root[m]
  }

  lemma {:induction false} JoinedStep(features: seq<Document>, t: int, root: seq<nat>, later: seq<nat>, i: nat, j: nat)
    requires i < j < |features| && JoinedBefore(features, t, root, i, j) && Keeps(root, later)
    requires Joins(features[i], features[j], t) ==> later[i] == later[j]
    ensures JoinedBefore(features, t, later, i, j + 1)
  {
    hide Joins;
  }

  lemma {:induction false} JoinedRow(features: seq<Document>, t: int, root: seq<nat>, i: nat)
    ensures JoinedBefore(features, t, root, i, |features|) ==> JoinedBefore(features, t, root, i + 1, i + 2)
    ensures |root| == |features| ==> JoinedBefore(features, t, root, 0, 1)
  {
    hide Joins;
  }

  lemma {:induction false} JoinedAll(features: seq<Document>, t: int, root: seq<nat>, k: nat, m: nat)
    requires JoinedBefore(features, t, root, |features|, |features| + 1)
    requires k < |features| && m < |features| && k != m && Joins(features[k], features[m], t)
    ensures root[k] == root[m]
  {
    JoinsSymmetric(features[k], features[m], t);
    hide Joins;
    if m < k { assert Joins(features[m], features[k], t); }
  }

  method BuildTopicCandidatesExhaustive(documents: seq<Document>, t: int, stableId: (seq<string>, int) -> string)
      returns (out: seq<TopicCandidate>)
    ensures IsTopicReport(documents, t, stableId, out)
  {
    var features := Eligible(documents);
    if |features| < 2 {
      TooFewToGroup(documents, t, stableId);
      return [];
    }
    if t <= 0 {
      ZeroThresholdJoinsAll(documents, t, stableId);
      return [BuildCandidate(features, Identity(|features|), t, stableId)];
    }
    hide Joins, BuildAll, Report, Components, Forest, Merge, UnitedBy, JoinedBefore, Keeps;
    var n := |features|;
    var sets := new Partition(n);
    ghost var united: seq<Edge> := [];
    NothingUnited(features, t);
    JoinedRow(features, t, sets.root, 0);
    var i: nat := 0;
    while i < n
      invariant i <= n && sets.Valid() && sets.parent.Length == n && fresh(sets) && fresh(sets.parent)
      invariant UnitedBy(features, t, sets.root, united) && JoinedBefore(features, t, sets.root, i, i + 1)
    {
      var j: nat := i + 1;
      while j < n
        invariant i < j <= n && sets.Valid() && sets.parent.Length == n && fresh(sets) && fresh(sets.parent)
        invariant UnitedBy(features, t, sets.root, united) && JoinedBefore(features, t, sets.root, i, j)
      {
        ghost var root := sets.root;
        KeepsItself(root);
        if Joins(features[i], features[j], t) {
          var rootA := sets.FindPlain(i);
          var rootB := sets.FindPlain(j);
          UniteJoining(features, t, sets.root, united, i, j);
          sets.Link(i, j, rootA, rootB);
          united := united + [(i, j)];
        }
        JoinedStep(features, t, root, sets.root, i, j);
        j := j + 1;
      }
      JoinedRow(features, t, sets.root, i);
      i := i + 1;
    }
    forall k: nat, m: nat | k < n && m < n && k != m && Joins(features[k], features[m], t)
      ensures sets.root[k] == sets.root[m]
    {
      JoinedAll(features, t, sets.root, k, m);
    }
    UnitedIsComponents(features, t, sets.root, united);
    var groups := CollectComponents(sets);
    out := Report(features, groups, t, stableId);
  }

  // ---------- the indexed pass ----------

  datatype Slot = Slot(feature: Document, index: nat)

  predicate SmallerFirst(a: Slot, b: Slot) {
    if |a.feature.terms| != |b.feature.terms| then |a.feature.terms| < |b.feature.terms|
    else AtMost(a.feature.id, b.feature.id)
  }

  /** The part of a document's ranked terms it is probed and indexed with. */
  function PrefixOf(ranked: seq<string>, t: nat): seq<string> {
    Take(ranked, PrefixLength(|ranked|, t, TOPIC_UNIT))
  }

  /** No joining pair is lost by indexing prefixes only. */
  lemma {:induction false} JoiningPairMeets(le: (string, string) -> bool, x: Document, rx: seq<string>, y: Document, ry: seq<string>, t: nat)
      returns (s: string)
    requires t > 0 && Antisymmetric(le)
    requires Ranks(le, rx, x.terms) && Ranks(le, ry, y.terms) && Joins(x, y, t)
    ensures s in PrefixOf(rx, t) && s in PrefixOf(ry, t)
  {
    s := PrefixesMeet(le, rx, x.terms, ry, y.terms, t, TOPIC_UNIT);
  }

  /** Every position once, smallest term set first. */
  ghost predicate IsVisitOrder(features: seq<Document>, order: seq<Slot>) {
    && |order| == |features|
    && (forall p :: 0 <= p < |order| ==> order[p].index < |features| && order[p].feature == features[order[p].index])
    && (forall p, q :: 0 <= p < q < |order| ==>
          order[p].index != order[q].index && |order[p].feature.terms| <= |order[q].feature.terms|)
  }

  lemma {:induction false} SlotsInOrder(features: seq<Document>, slots: seq<Slot>)
    requires |slots| == |features| && forall i :: 0 <= i < |slots| ==> slots[i] == Slot(features[i], i)
    ensures IsVisitOrder(features, Sort(slots, SmallerFirst))
  {
    AtMostIsTotalPreorder();
    assert TotalPreorder(SmallerFirst);
    var order := Sort(slots, SmallerFirst);
    SortOrders(slots, SmallerFirst);
    SortKeepsMembers(slots, SmallerFirst);
    SortKeepsDistinct(slots, SmallerFirst);
    forall p | 0 <= p < |order| ensures order[p].index < |features| && order[p].feature == features[order[p].index] {
      assert order[p] in slots;
    }
    forall p, q | 0 <= p < q < |order|
      ensures order[p].index != order[q].index && |order[p].feature.terms| <= |order[q].feature.terms|
    {
      assert order[p] != order[q] && SmallerFirst(order[p], order[q]);
    }
  }

  ghost function VisitedBefore(order: seq<Slot>, position: nat): set<nat>
    requires position <= |order|
  {
    set p | 0 <= p < position :: order[p].index
  }

  lemma {:induction false} SlotStep(features: seq<Document>, order: seq<Slot>, position: nat)
    requires IsVisitOrder(features, order) && position < |order|
    ensures order[position].index !in VisitedBefore(order, position)
    ensures VisitedBefore(order, position + 1) == VisitedBefore(order, position) + {order[position].index}
    ensures forall k :: k in VisitedBefore(order, position) ==>
              k < |features| && |features[k].terms| <= |order[position].feature.terms|
  {}

  lemma {:induction false} FullSet(visited: set<nat>, n: nat)
    requires |visited| == n && forall k :: k in visited ==> k < n
    ensures forall k :: 0 <= k < n ==> k in visited
  {
    forall k | 0 <= k < n ensures k in visited {
      forall m | m in visited + {k} ensures m in Identity(n) {
        assert Identity(n)[m] == m;
      }
      ListedSize(visited + {k}, Identity(n));
    }
  }

  /** The postings hold exactly the prefixes of the documents visited so far. */
  ghost predicate Indexed(le: (string, string) -> bool, features: seq<Document>, t: nat,
                          rankings: map<nat, seq<string>>, postings: map<string, seq<nat>>)
  {
    && (forall k :: k in rankings ==> k < |features| && Ranks(le, rankings[k], features[k].terms))
    && (forall s, k: nat :: Posted(postings, s, k) <==> k in rankings && s in PrefixOf(rankings[k], t))
  }

  lemma {:induction false} JoiningPairsAreOffered(le: (string, string) -> bool, features: seq<Document>, t: nat,
                               rankings: map<nat, seq<string>>, postings: map<string, seq<nat>>,
                               index: nat, ranked: seq<string>)
    requires t > 0 && Antisymmetric(le) && Indexed(le, features, t, rankings, postings)
    requires index < |features| && Ranks(le, ranked, features[index].terms)
    ensures forall k: nat :: k in rankings && Joins(features[index], features[k], t) ==>
              Offered(postings, PrefixOf(ranked, t), k)
    ensures ranked == [] ==> PrefixOf(ranked, t) == []
  {
    forall k: nat | k in rankings && Joins(features[index], features[k], t)
      ensures Offered(postings, PrefixOf(ranked, t), k)
    {
      var s := JoiningPairMeets(le, features[index], ranked, features[k], rankings[k], t);
      assert Posted(postings, s, k);
    }
  }

  /** Only `index` has been stamped. */
  ghost predicate Restamped(stamps0: seq<int>, stamps: seq<int>, index: int) {
    |stamps| == |stamps0| && forall k :: 0 <= k < |stamps| ==> stamps[k] == stamps0[k] || stamps[k] == index
  }

  ghost predicate Unstamped(stamps: seq<int>, index: int) {
    forall k :: 0 <= k < |stamps| ==> stamps[k] != index
  }

  /** The state of one document's round: who has been offered, and what that settled. */
  ghost predicate Round(features: seq<Document>, t: nat, index: nat, root0: seq<nat>, root: seq<nat>,
                        stamps0: seq<int>, stamps: seq<int>, seen: set<nat>, work: nat, united: seq<Edge>)
  {
    && index < |features| == |stamps0| == |stamps| == |root|
    && UnitedBy(features, t, root, united) && Keeps(root0, root)
    && (forall k: nat :: k in seen <==> k < |stamps| && stamps[k] == index)
    && Restamped(stamps0, stamps, index)
    && (forall k :: k in seen && Joins(features[index], features[k], t) ==> root[k] == root[index])
    && work <= |seen|
  }

  lemma {:induction false} RoundStart(features: seq<Document>, t: nat, index: nat, root: seq<nat>, stamps: seq<int>, united: seq<Edge>)
    requires index < |features| == |stamps| == |root| && UnitedBy(features, t, root, united)
    requires Unstamped(stamps, index)
    ensures Round(features, t, index, root, root, stamps, stamps, {}, 0, united)
  {
    hide UnitedBy;
  }

  lemma {:induction false} RoundEnd(features: seq<Document>, t: nat, index: nat, root0: seq<nat>, root: seq<nat>,
                 stamps0: seq<int>, stamps: seq<int>, seen: set<nat>, work: nat, united: seq<Edge>)
    requires Round(features, t, index, root0, root, stamps0, stamps, seen, work, united)
    ensures |stamps0| == |stamps| == |root| == |features|
    ensures UnitedBy(features, t, root, united) && Keeps(root0, root) && work <= |seen|
    ensures Restamped(stamps0, stamps, index)
    ensures index < |root| && forall k: nat ::
              k in seen && k < |features| && Joins(features[index], features[k], t) ==> root[k] == root[index]
  {
    hide UnitedBy, Joins, Keeps;
  }

  /** A partner that is settled already, or does not join, leaves the partition alone. */
  lemma {:induction false} RoundMark(features: seq<Document>, t: nat, index: nat, root0: seq<nat>, root: seq<nat>,
                  stamps0: seq<int>, stamps: seq<int>, seen: set<nat>, work: nat, united: seq<Edge>, other: nat)
    requires Round(features, t, index, root0, root, stamps0, stamps, seen, work, united)
    requires other < |features| && other !in seen
    requires Joins(features[index], features[other], t) ==> root[other] == root[index]
    ensures Round(features, t, index, root0, root, stamps0, stamps[other := index], seen + {other}, work + 1, united)
  {
    hide Joins, UnitedBy;
  }

  /** A joining partner is united with the document. */
  lemma {:induction false} RoundUnite(features: seq<Document>, t: nat, index: nat, root0: seq<nat>, root: seq<nat>,
                   stamps0: seq<int>, stamps: seq<int>, seen: set<nat>, work: nat, united: seq<Edge>, other: nat)
    requires Round(features, t, index, root0, root, stamps0, stamps, seen, work, united)
    requires other < |features| && other !in seen && other != index
    requires Joins(features[index], features[other], t)
    ensures Round(features, t, index, root0, Merge(root, other, index), stamps0, stamps[other := index],
                  seen + {other}, work + 1, united + [(other, index)])
  {
    JoinsSymmetric(features[index], features[other], t);
    hide Joins, UnitedBy, Merge;
    UniteJoining(features, t, root, united, other, index);
  }

  /** One entry of a posting list: stamp it, then skip, reject or unite. */
  method OfferOne(features: seq<Document>, t: nat, index: nat, other: nat, root: nat,
                  sets: Partition, offeredAt: array<int>, ghost root0: seq<nat>, ghost stamps0: seq<int>,
                  ghost seen: set<nat>, ghost work: nat, ghost united0: seq<Edge>)
      returns (evaluated: nat, skipped: nat, root': nat, ghost united: seq<Edge>)
    requires t > 0 && index < |features| && other < |features| && other != index
    requires sets.Valid() && sets.parent.Length == offeredAt.Length == |features| && root == sets.root[index]
    requires sets.parent as object != offeredAt as object
    requires Round(features, t, index, root0, sets.root, stamps0, offeredAt[..], seen, work, united0)
    modifies sets, sets.parent, offeredAt
    ensures sets.Valid() && root' == sets.root[index]
    ensures Round(features, t, index, root0, sets.root, stamps0, offeredAt[..], seen + {other},
                  work + evaluated + skipped, united)
  {
    hide Joins, Forest, MergeAll, Merge, UnitedBy, Keeps;
    evaluated, skipped, root', united := 0, 0, root, united0;
    if offeredAt[other] == index {
      assert seen + {other} == seen;
      return;
    }
    ghost var stamps := offeredAt[..];
    offeredAt[other] := index;
    assert offeredAt[..] == stamps[other := index];
    var otherRoot := sets.Find(other);
    if otherRoot == root {
      skipped := 1;
      RoundMark(features, t, index, root0, sets.root, stamps0, stamps, seen, work, united, other);
    } else if |features[other].terms| * TOPIC_UNIT < t * |features[index].terms| {
      TooSmallToJoin(features[index], features[other], t);
      RoundMark(features, t, index, root0, sets.root, stamps0, stamps, seen, work, united, other);
    } else {
      evaluated := 1;
      if Joins(features[index], features[other], t) {
        RoundUnite(features, t, index, root0, sets.root, stamps0, stamps, seen, work, united, other);
        sets.Union(other, index);
        united := united + [(other, index)];
        root' := sets.Find(index);
      } else {
        RoundMark(features, t, index, root0, sets.root, stamps0, stamps, seen, work, united, other);
      }
    }
  }

  /** Offer every partner the prefix reaches, each once, uniting those that join. */
  method OfferPartners(features: seq<Document>, t: nat, index: nat, prefix: seq<string>,
                       postings: map<string, seq<nat>>, sets: Partition, offeredAt: array<int>,
                       ghost visited: set<nat>, ghost united0: seq<Edge>)
      returns (evaluated: nat, skipped: nat, ghost united: seq<Edge>)
    requires t > 0 && index < |features| && index !in visited
    requires sets.Valid() && sets.parent.Length == offeredAt.Length == |features|
    requires sets.parent as object != offeredAt as object
    requires UnitedBy(features, t, sets.root, united0)
    requires forall k :: k in visited ==> k < |features|
    requires forall s, k: nat :: Posted(postings, s, k) ==> k in visited
    requires Unstamped(offeredAt[..], index)
    modifies sets, sets.parent, offeredAt
    ensures sets.Valid() && UnitedBy(features, t, sets.root, united) && Keeps(old(sets.root), sets.root)
    ensures |sets.root| == |features|
    ensures forall k: nat :: Offered(postings, prefix, k) && k < |features| && Joins(features[index], features[k], t) ==>
              sets.root[k] == sets.root[index]
    ensures evaluated + skipped <= |visited|
    ensures Restamped(old(offeredAt[..]), offeredAt[..], index)
  {
    hide Joins, Forest, Round, UnitedBy, Keeps;
    ghost var root0, stamps0 := sets.root, offeredAt[..];
    RoundStart(features, t, index, root0, stamps0, united0);
    evaluated, skipped, united := 0, 0, united0;
    ghost var seen: set<nat> := {};
    var root := sets.Find(index);
    var i := 0;
    while i < |prefix|
      invariant 0 <= i <= |prefix| && sets.Valid() && root == sets.root[index]
      invariant Round(features, t, index, root0, sets.root, stamps0, offeredAt[..], seen, evaluated + skipped, united)
      invariant forall k: nat :: k in seen <==> Offered(postings, prefix[..i], k)
    {
      var bucket := if prefix[i] in postings then postings[prefix[i]] else [];
      ghost var before := seen;
      var j := 0;
      while j < |bucket|
        invariant 0 <= j <= |bucket| && sets.Valid() && root == sets.root[index]
        invariant Round(features, t, index, root0, sets.root, stamps0, offeredAt[..], seen, evaluated + skipped, united)
        invariant forall k: nat :: k in seen <==> k in before || k in bucket[..j]
      {
        var other := bucket[j];
        assert Posted(postings, prefix[i], other);
        assert bucket[..j + 1] == bucket[..j] + [other];
        var e, s;
        e, s, root, united := OfferOne(features, t, index, other, root, sets, offeredAt, root0, stamps0, seen,
                                       evaluated + skipped, united);
        evaluated, skipped, seen := evaluated + e, skipped + s, seen + {other};
        j := j + 1;
      }
      assert bucket[..|bucket|] == bucket;
      OfferedStep(postings, prefix, i);
      assert forall k: nat :: k in bucket <==> Posted(postings, prefix[i], k);
      i := i + 1;
    }
    assert prefix[..|prefix|] == prefix;
    SubsetSize(seen, visited);
    RoundEnd(features, t, index, root0, sets.root, stamps0, offeredAt[..], seen, evaluated + skipped, united);
  }

  lemma {:induction false} EmptyNeverJoins(x: Document, y: Document, t: nat)
    requires t > 0 && x.terms == {}
    ensures !Joins(x, y, t) && !Joins(y, x, t)
  {}

  lemma {:induction false} TooSmallToJoin(x: Document, y: Document, t: nat)
    requires t > 0 && |y.terms| * TOPIC_UNIT < t * |x.terms|
    ensures !Joins(x, y, t)
  {
    if x.terms != {} && y.terms != {} {
      SizeBound(t, TOPIC_UNIT, x.terms, y.terms);
    }
  }

  /** No two visited documents that join are left in different classes. */
  ghost predicate Settled(features: seq<Document>, t: nat, root: seq<nat>, visited: set<nat>) {
    && |root| == |features| && (forall k :: k in visited ==> k < |features|)
    && forall k, m :: k in visited && m in visited && k != m && Joins(features[k], features[m], t) ==> root[k] == root[m]
  }

  /** A stamp names a visited document, or nobody yet. */
  ghost predicate Stamped(stamps: seq<int>, visited: set<nat>) {
    forall p :: 0 <= p < |stamps| && stamps[p] >= 0 ==> stamps[p] in visited
  }

  /** The state between documents: what is visited, indexed and united, and the pair work so far. */
  ghost predicate Visited(features: seq<Document>, t: nat, le: (string, string) -> bool, order: seq<Slot>, position: nat,
                          root: seq<nat>, stamps: seq<int>, rankings: map<nat, seq<string>>,
                          postings: map<string, seq<nat>>, united: seq<Edge>, work: nat)
  {
    && position <= |order| && |stamps| == |root| == |features|
    && UnitedBy(features, t, root, united)
    && rankings.Keys == VisitedBefore(order, position) && |rankings.Keys| == position
    && Indexed(le, features, t, rankings, postings)
    && Stamped(stamps, rankings.Keys)
    && Settled(features, t, root, rankings.Keys)
    && 2 * work <= Pairs(position)
  }

  /** `n (n - 1)`: twice the number of pairs. */
  function Pairs(n: nat): int {
    n * (n - 1)
  }

  lemma {:induction false} IndexedStep(le: (string, string) -> bool, features: seq<Document>, t: nat, rankings: map<nat, seq<string>>,
                    postings: map<string, seq<nat>>, index: nat, ranked: seq<string>, postings': map<string, seq<nat>>)
    requires Indexed(le, features, t, rankings, postings) && index !in rankings && index < |features|
    requires Ranks(le, ranked, features[index].terms)
    requires forall s, k: nat :: Posted(postings', s, k) <==> Posted(postings, s, k) || (s in PrefixOf(ranked, t) && k == index)
    ensures Indexed(le, features, t, rankings[index := ranked], postings')
  {
    hide PrefixOf, Ranks;
  }

  lemma {:induction false} SettledStep(features: seq<Document>, t: nat, root: seq<nat>, root': seq<nat>, visited: set<nat>, index: nat)
    requires Settled(features, t, root, visited) && Keeps(root, root') && index < |features|
    requires forall k :: k in visited && Joins(features[index], features[k], t) ==> root'[k] == root'[index]
    ensures Settled(features, t, root', visited + {index})
  {
    forall k | k in visited ensures Joins(features[index], features[k], t) == Joins(features[k], features[index], t) {
      JoinsSymmetric(features[index], features[k], t);
    }
    hide Joins;
  }

  /**
   The indexed pass: the same components as comparing every pair, and never more pair work
   (Jaccard computations plus same-component skips) than comparing every pair would cost.
   */
  method BuildTopicCandidates(documents: seq<Document>, t: int, stableId: (seq<string>, int) -> string)
      returns (out: seq<TopicCandidate>, evaluated: nat, skipped: nat)
    ensures IsTopicReport(documents, t, stableId, out)
    ensures 2 * (evaluated + skipped) <= Pairs(|Eligible(documents)|)
  {
    hide *;
    var features := Eligible(documents);
    var n := |features|;
    PairsNonNegative(n);
    if n < 2 {
      TooFewToGroup(documents, t, stableId);
      return [], 0, 0;
    }
    if t <= 0 {
      ZeroThresholdJoinsAll(documents, t, stableId);
      return [BuildCandidate(features, Identity(n), t, stableId)], 0, 0;
    }
    var groups;
    groups, evaluated, skipped := ConnectIndexed(features, t);
    ReportOfComponents(documents, t, stableId, groups);
    out := Report(features, groups, t, stableId);
  }

  lemma {:induction false} PairsNonNegative(n: nat)
    ensures Pairs(n) >= 0 && Pairs(n + 1) == Pairs(n) + 2 * n
  {}

  lemma {:induction false} ReportOfComponents(documents: seq<Document>, t: int, stableId: (seq<string>, int) -> string,
                                              groups: seq<seq<nat>>)
    requires exists root :: ComponentsOf(Eligible(documents), t, root) && groups == Components(root)
    ensures IsTopicReport(documents, t, stableId, Report(Eligible(documents), groups, t, stableId))
  {
    hide ComponentsOf, Components, Report, Eligible;
  }

  lemma {:induction false} NothingVisited(features: seq<Document>, t: nat, le: (string, string) -> bool, order: seq<Slot>, stamps: seq<int>)
    requires |stamps| == |features| && forall p :: 0 <= p < |stamps| ==> stamps[p] == -1
    ensures Visited(features, t, le, order, 0, Identity(|features|), stamps, map[], map[], [], 0)
  {
    NothingUnited(features, t);
  }

  lemma {:induction false} SettledIsComponents(features: seq<Document>, t: nat, root: seq<nat>, united: seq<Edge>, visited: set<nat>)
    requires UnitedBy(features, t, root, united) && Settled(features, t, root, visited)
    requires forall k :: 0 <= k < |features| ==> k in visited
    ensures ComponentsOf(features, t, root)
  {
    hide Joins, UnitedBy, ComponentsOf;
    UnitedIsComponents(features, t, root, united);
  }

  /** Offer the partners of a document that has terms, and index it; a document without any joins nobody. */
  method Probe(features: seq<Document>, t: nat, le: (string, string) -> bool, index: nat,
               postings0: map<string, seq<nat>>, sets: Partition, offeredAt: array<int>,
               ghost rankings: map<nat, seq<string>>, ghost position: nat, ghost united0: seq<Edge>)
      returns (evaluated: nat, skipped: nat, ghost ranked: seq<string>, postings: map<string, seq<nat>>,
               ghost united: seq<Edge>)
    requires t > 0 && TotalPreorder(le) && Antisymmetric(le) && index < |features| && index !in rankings
    requires sets.Valid() && sets.parent.Length == offeredAt.Length == |features|
    requires sets.parent as object != offeredAt as object
    requires UnitedBy(features, t, sets.root, united0)
    requires Counted(rankings, position)
    requires Indexed(le, features, t, rankings, postings0) && Settled(features, t, sets.root, rankings.Keys)
    requires Unstamped(offeredAt[..], index)
    modifies sets, sets.parent, offeredAt
    ensures sets.Valid() && UnitedBy(features, t, sets.root, united)
    ensures Indexed(le, features, t, rankings[index := ranked], postings)
    ensures Settled(features, t, sets.root, rankings.Keys + {index})
    ensures evaluated + skipped <= position
    ensures Restamped(old(offeredAt[..]), offeredAt[..], index)
  {
    hide *;
    CountOf(rankings, position);
    var terms := features[index].terms;
    var ranking := RankTerms(terms, le);
    ranked := ranking;
    RankingOfNothing(le, ranked, terms);
    var prefix := PrefixOf(ranking, t);
    ghost var root0 := sets.root;
    evaluated, skipped, postings, united := 0, 0, postings0, united0;
    JoiningPairsAreOffered(le, features, t, rankings, postings0, index, ranked);
    IndexedPostsVisited(le, features, t, rankings, postings0);
    if |terms| != 0 {
      evaluated, skipped, united := OfferPartners(features, t, index, prefix, postings, sets, offeredAt,
                                                  rankings.Keys, united);
      postings := IndexPrefix(postings, prefix, index);
    } else {
      KeepsItself(sets.root);
      assert Restamped(offeredAt[..], offeredAt[..], index) by { RestampedItself(offeredAt[..], index); }
      forall k: nat | k in rankings && k < |features| ensures !Joins(features[index], features[k], t) {
        EmptyNeverJoins(features[index], features[k], t);
      }
    }
    SettledStep(features, t, root0, sets.root, rankings.Keys, index);
    IndexedStep(le, features, t, rankings, postings0, index, ranked, postings);
  }

  ghost predicate Counted(rankings: map<nat, seq<string>>, position: nat) {
    |rankings.Keys| == position
  }

  lemma {:induction false} CountOf(rankings: map<nat, seq<string>>, position: nat)
    requires Counted(rankings, position)
    ensures |rankings.Keys| == position
  {}

  lemma {:induction false} IndexedPostsVisited(le: (string, string) -> bool, features: seq<Document>, t: nat,
                                               rankings: map<nat, seq<string>>, postings: map<string, seq<nat>>)
    requires Indexed(le, features, t, rankings, postings)
    ensures forall k :: k in rankings.Keys ==> k < |features|
    ensures forall s, k: nat :: Posted(postings, s, k) ==> k in rankings.Keys
  {
    hide PrefixOf, Ranks;
  }

  /** One turn of the main loop: rank the document's terms, offer its partners, then index its prefix. */
  method VisitSlot(features: seq<Document>, t: nat, le: (string, string) -> bool, order: seq<Slot>, position: nat,
                   sets: Partition, offeredAt: array<int>, postings0: map<string, seq<nat>>,
                   ghost rankings0: map<nat, seq<string>>, ghost united0: seq<Edge>, ghost work: nat)
      returns (evaluated: nat, skipped: nat, postings: map<string, seq<nat>>,
               ghost rankings: map<nat, seq<string>>, ghost united: seq<Edge>)
    requires t > 0 && position < |order| && TotalPreorder(le) && Antisymmetric(le) && IsVisitOrder(features, order)
    requires sets.Valid() && sets.parent.Length == offeredAt.Length == |features|
    requires sets.parent as object != offeredAt as object
    requires Visited(features, t, le, order, position, sets.root, offeredAt[..], rankings0, postings0, united0, work)
    modifies sets, sets.parent, offeredAt
    ensures sets.Valid()
    ensures Visited(features, t, le, order, position + 1, sets.root, offeredAt[..], rankings, postings, united,
                    work + evaluated + skipped)
  {
    hide *;
    var index := order[position].index;
    ghost var root0, stamps0 := sets.root, offeredAt[..];
    BeforeRound(features, t, le, order, position, root0, stamps0, rankings0, postings0, united0, work);
    ghost var ranked;
    evaluated, skipped, ranked, postings, united := Probe(features, t, le, index, postings0, sets, offeredAt,
                                                          rankings0, position, united0);
    rankings := rankings0[index := ranked];
    assert Visited(features, t, le, order, position + 1, sets.root, offeredAt[..], rankings, postings, united,
                   work + evaluated + skipped) by {
      AfterRound(features, t, le, order, position, root0, stamps0, rankings0, postings0, united0, work,
                 ranked, sets.root, offeredAt[..], postings, united, evaluated + skipped, work + evaluated + skipped);
    }
  }

  lemma {:induction false} BeforeRound(features: seq<Document>, t: nat, le: (string, string) -> bool, order: seq<Slot>, position: nat,
                    root: seq<nat>, stamps: seq<int>, rankings: map<nat, seq<string>>,
                    postings: map<string, seq<nat>>, united: seq<Edge>, work: nat)
    requires position < |order| && IsVisitOrder(features, order)
    requires Visited(features, t, le, order, position, root, stamps, rankings, postings, united, work)
    ensures |root| == |stamps| == |features|
    ensures order[position].index < |features| && order[position].feature == features[order[position].index]
    ensures order[position].index !in rankings && Counted(rankings, position)
    ensures UnitedBy(features, t, root, united) && Indexed(le, features, t, rankings, postings)
    ensures Settled(features, t, root, rankings.Keys)
    ensures Unstamped(stamps, order[position].index)
  {
    hide UnitedBy, PrefixOf, Ranks, Joins;
    SlotStep(features, order, position);
  }

  /** One round done: the document is settled against every earlier one, and then indexed itself. */
  lemma {:induction false} AfterRound(features: seq<Document>, t: nat, le: (string, string) -> bool, order: seq<Slot>, position: nat,
                   root: seq<nat>, stamps: seq<int>, rankings: map<nat, seq<string>>,
                   postings: map<string, seq<nat>>, united: seq<Edge>, work: nat,
                   ranked: seq<string>, root': seq<nat>, stamps': seq<int>, postings': map<string, seq<nat>>,
                   united': seq<Edge>, added: nat, total: nat)
    requires position < |order| && IsVisitOrder(features, order) && total == work + added
    requires Visited(features, t, le, order, position, root, stamps, rankings, postings, united, work)
    requires UnitedBy(features, t, root', united') && added <= position
    requires Restamped(stamps, stamps', order[position].index)
    requires Indexed(le, features, t, rankings[order[position].index := ranked], postings')
    requires Settled(features, t, root', rankings.Keys + {order[position].index})
    ensures Visited(features, t, le, order, position + 1, root', stamps', rankings[order[position].index := ranked],
                    postings', united', total)
  {
    hide UnitedBy, Indexed, Settled, Pairs, VisitedBefore, IsVisitOrder;
    SlotStep(features, order, position);
    PairsNonNegative(position);
    SettledLength(features, t, root', rankings.Keys + {order[position].index});
    assert rankings[order[position].index := ranked].Keys == rankings.Keys + {order[position].index};
  }

  lemma {:induction false} SettledLength(features: seq<Document>, t: nat, root: seq<nat>, visited: set<nat>)
    requires Settled(features, t, root, visited)
    ensures |root| == |features|
  {}

  lemma {:induction false} RankingOfNothing(le: (string, string) -> bool, ranked: seq<string>, terms: set<string>)
    requires Ranks(le, ranked, terms)
    ensures |terms| == 0 ==> terms == {} && ranked == []
  {}

  lemma {:induction false} RestampedItself(stamps: seq<int>, index: int)
    ensures Restamped(stamps, stamps, index)
  {}

  lemma {:induction false} KeepsItself(root: seq<nat>)
    ensures Keeps(root, root)
  {}

  method ConnectIndexed(features: seq<Document>, t: nat) returns (groups: seq<seq<nat>>, evaluated: nat, skipped: nat)
    requires t > 0
    ensures exists root :: ComponentsOf(features, t, root) && groups == Components(root)
    ensures 2 * (evaluated + skipped) <= Pairs(|features|)
  {
    hide Joins, Components, Forest, Merge, UnitedBy, ComponentsOf, Indexed, Settled, Pairs, TotalPreorder, GlobalOrder,
         IsVisitOrder;
    var n := |features|;
    var frequency := DocumentFrequency(seq(n, i requires 0 <= i < n => features[i].vocabulary));
    var le := GlobalOrder(frequency);
    GlobalOrderIsTotal(frequency);
    var slots := seq(n, i requires 0 <= i < n => Slot(features[i], i));
    var order := Sort(slots, SmallerFirst);
    SlotsInOrder(features, slots);
    SortKeepsMembers(slots, SmallerFirst);
    var sets := new Partition(n);
    var offeredAt := new int[n](_ => -1);
    NothingVisited(features, t, le, order, offeredAt[..]);
    var postings: map<string, seq<nat>> := map[];
    ghost var rankings: map<nat, seq<string>>, united: seq<Edge> := map[], [];
    evaluated, skipped := 0, 0;
    var position: nat := 0;
    while position < n
      invariant position <= n && sets.Valid() && sets.parent.Length == n == offeredAt.Length
      invariant fresh(sets) && fresh(sets.parent) && fresh(offeredAt) && sets.parent as object != offeredAt as object
      invariant Visited(features, t, le, order, position, sets.root, offeredAt[..], rankings, postings, united,
                        evaluated + skipped)
    {
      var e, s;
      e, s, postings, rankings, united := VisitSlot(features, t, le, order, position, sets, offeredAt, postings,
                                                    rankings, united, evaluated + skipped);
      evaluated, skipped, position := evaluated + e, skipped + s, position + 1;
    }
    VisitedAll(features, t, le, order, sets.root, offeredAt[..], rankings, postings, united, evaluated + skipped);
    groups := CollectComponents(sets);
  }

  lemma {:induction false} VisitedAll(features: seq<Document>, t: nat, le: (string, string) -> bool, order: seq<Slot>,
                   root: seq<nat>, stamps: seq<int>, rankings: map<nat, seq<string>>,
                   postings: map<string, seq<nat>>, united: seq<Edge>, work: nat)
    requires Visited(features, t, le, order, |features|, root, stamps, rankings, postings, united, work)
    ensures ComponentsOf(features, t, root) && 2 * work <= Pairs(|features|)
  {
    hide UnitedBy, ComponentsOf, Indexed, Pairs, Joins;
    FullSet(rankings.Keys, |features|);
    SettledIsComponents(features, t, root, united, rankings.Keys);
  }
}
