/** Topic and project candidates of src/corpus_fusion.ts: components over the pairs whose evidence admits them. */
module FusionCandidates {
  import opened Ordering
  import opened Connectivity
  import opened Fusion
  import opened FusionComponents

  datatype Purpose = Topic | Project

  /** Whether the evidence on a pair joins its two artifacts, for the purpose at hand. */
  ghost predicate Admits(purpose: Purpose, p: Pair, t: real) {
    match purpose
    case Topic => ConfidenceOf(p.signals, t) != Weak
    case Project => ProjectEvidence(p.signals)
  }

  ghost function AdmittedLinks(purpose: Purpose, pairs: seq<Pair>, t: real): set<Link> {
    set p <- pairs | Admits(purpose, p, t) :: (p.a, p.b)
  }

  predicate Inside(members: seq<string>, a: string, b: string) {
    a in members && b in members
  }

  /** The best class any pair inside the group reaches. */
  ghost function StrongestIn(pairs: seq<Pair>, members: seq<string>, t: real): Confidence {
    if exists p :: p in pairs && Inside(members, p.a, p.b) && ConfidenceOf(p.signals, t) == Strong then Strong
    else if exists p :: p in pairs && Inside(members, p.a, p.b) && ConfidenceOf(p.signals, t) == Moderate then Moderate
    else Weak
  }

  datatype Candidate = Candidate(members: seq<string>, supportingPairs: seq<string>, confidence: Confidence, weaklyConnected: bool)

  ghost predicate ClassifiesAll(pairs: seq<Pair>, t: real, entries: seq<Classification>) {
    |entries| == |pairs| && forall i :: 0 <= i < |pairs| ==> Classifies(pairs[i], t, entries[i])
  }

  predicate IsEdge(purpose: Purpose, c: Classification)
    requires forall f: Family :: f in c.counts
  {
    if purpose.Topic? then IsTopicEdge(c) else IsProjectEligibleEdge(c)
  }

  lemma {:induction false} EdgeIffAdmits(purpose: Purpose, pair: Pair, t: real, c: Classification)
    requires Classifies(pair, t, c)
    ensures forall f: Family :: f in c.counts
    ensures IsEdge(purpose, c) <==> Admits(purpose, pair, t)
    ensures c.a == pair.a && c.b == pair.b && c.pairId == pair.id && c.confidence == ConfidenceOf(pair.signals, t)
  {
    ProjectEdgeIffEvidence(pair, t, c);
    TopicEdgeIffNotWeak(pair, t, c);
    hide ConfidenceOf, ProjectEvidence, IsProjectEligibleEdge, IsTopicEdge, EmbeddingOnly, ContextOnly, InOrder, SupportingOf, StrongOf;
  }

  method ClassifyAll(pairs: seq<Pair>, t: real) returns (entries: seq<Classification>)
    ensures ClassifiesAll(pairs, t, entries)
  {
    hide Classifies;
    entries := [];
    var i := 0;
    while i < |pairs|
      invariant 0 <= i <= |pairs| && |entries| == i
      invariant forall k :: 0 <= k < i ==> Classifies(pairs[k], t, entries[k])
    {
      var c := ClassifyPair(pairs[i], t);
      entries := entries + [c];
      i := i + 1;
    }
  }

  /** The edges the purpose admits, in input order. */
  method EdgesOf(purpose: Purpose, ghost pairs: seq<Pair>, t: real, entries: seq<Classification>) returns (edges: seq<Link>)
    requires ClassifiesAll(pairs, t, entries)
    ensures LinksOf(edges) == AdmittedLinks(purpose, pairs, t)
  {
    hide Classifies, Admits, IsEdge;
    edges := [];
    var i := 0;
    while i < |entries|
      invariant 0 <= i <= |entries|
      invariant LinksOf(edges) == AdmittedLinks(purpose, pairs[..i], t)
    {
      assert pairs[..i + 1] == pairs[..i] + [pairs[i]];
      EdgeIffAdmits(purpose, pairs[i], t, entries[i]);
      AdmittedAfter(purpose, pairs[..i], pairs[i], t, edges);
      var c := entries[i];
      if IsEdge(purpose, c) { edges := edges + [(c.a, c.b)]; }
      i := i + 1;
    }
    assert pairs[..i] == pairs;
  }

  lemma {:induction false} AdmittedAfter(purpose: Purpose, pairs: seq<Pair>, p: Pair, t: real, edges: seq<Link>)
    ensures AdmittedLinks(purpose, pairs + [p], t)
            == AdmittedLinks(purpose, pairs, t) + (if Admits(purpose, p, t) then {(p.a, p.b)} else {})
    ensures LinksOf(edges + [(p.a, p.b)]) == LinksOf(edges) + {(p.a, p.b)}
  {
    hide Admits;
  }

  /** The ids of the pairs with both ends in the group, in input order. */
  function IdsWithin(pairs: seq<Pair>, members: seq<string>): seq<string> {
    if pairs == [] then []
    else
      var last := pairs[|pairs| - 1];
      IdsWithin(pairs[..|pairs| - 1], members) + if Inside(members, last.a, last.b) then [last.id] else []
  }

  /** A candidate is its members, with the pairs inside and the strongest class among them. */
  ghost predicate Describes(pairs: seq<Pair>, t: real, c: Candidate) {
    && c.supportingPairs == Sort(IdsWithin(pairs, c.members), AtMost)
    && c.confidence == StrongestIn(pairs, c.members, t)
    && (c.weaklyConnected <==> c.confidence != Strong)
  }

  /** `pairsWithin` and `strongestClass` over one member set. */
  method Describe(ghost pairs: seq<Pair>, t: real, entries: seq<Classification>, members: seq<string>) returns (c: Candidate)
    requires ClassifiesAll(pairs, t, entries)
    ensures c.members == members && Describes(pairs, t, c)
  {
    hide Classifies, ConfidenceOf, Sort;
    var ids: seq<string>, strong, moderate := [], false, false;
    var i := 0;
    while i < |entries|
      invariant 0 <= i <= |entries|
      invariant ids == IdsWithin(pairs[..i], members)
      invariant strong <==> exists k :: 0 <= k < i && Inside(members, pairs[k].a, pairs[k].b) && ConfidenceOf(pairs[k].signals, t) == Strong
      invariant moderate
                <==> exists k :: 0 <= k < i && Inside(members, pairs[k].a, pairs[k].b) && ConfidenceOf(pairs[k].signals, t) == Moderate
    {
      assert pairs[..i + 1][..i] == pairs[..i];
      EdgeIffAdmits(Topic, pairs[i], t, entries[i]);
      var e := entries[i];
      if Inside(members, e.a, e.b) {
        ids := ids + [e.pairId];
        if e.confidence == Strong { strong := true; }
        if e.confidence == Moderate { moderate := true; }
      }
      i := i + 1;
    }
    assert pairs[..i] == pairs;
    return Candidate(members, Sort(ids, AtMost), if strong then Strong else if moderate then Moderate else Weak, !strong);
  }

  ghost predicate IsWithin(pairs: seq<Pair>, members: seq<string>, p: Pair) {
    p in pairs && p.a in members && p.b in members
  }

  lemma {:induction false} IdsWithinAre(pairs: seq<Pair>, members: seq<string>, id: string)
    ensures id in IdsWithin(pairs, members) <==> exists p :: IsWithin(pairs, members, p) && p.id == id
  {
    if pairs == [] {
    } else {
      var last := |pairs| - 1;
      IdsWithinAre(pairs[..last], members, id);
      assert forall p :: p in pairs <==> p in pairs[..last] || p == pairs[last];
      if p :| IsWithin(pairs[..last], members, p) && p.id == id { assert IsWithin(pairs, members, p); }
      if p :| IsWithin(pairs, members, p) && p.id == id {
        if p in pairs[..last] { assert IsWithin(pairs[..last], members, p); }
      }
      if Inside(members, pairs[last].a, pairs[last].b) { assert IsWithin(pairs, members, pairs[last]); }
    }
  }

  /** A candidate's evidence is the pairs between two of its members, by id; its class is the best of theirs. */
  lemma {:induction false} EvidenceIsWithin(pairs: seq<Pair>, t: real, c: Candidate)
    requires Describes(pairs, t, c)
    ensures forall id :: id in c.supportingPairs <==> exists p :: IsWithin(pairs, c.members, p) && p.id == id
    ensures forall i, j :: 0 <= i < j < |c.supportingPairs| ==> AtMost(c.supportingPairs[i], c.supportingPairs[j])
    ensures forall p :: IsWithin(pairs, c.members, p) ==> Rank(ConfidenceOf(p.signals, t)) <= Rank(c.confidence)
    ensures c.confidence != Weak ==> exists p :: IsWithin(pairs, c.members, p) && ConfidenceOf(p.signals, t) == c.confidence
    ensures c.weaklyConnected <==> forall p :: IsWithin(pairs, c.members, p) ==> ConfidenceOf(p.signals, t) != Strong
  {
    hide ConfidenceOf, Sort, AtMost, IdsWithin;
    var ids := IdsWithin(pairs, c.members);
    SortKeepsMembers(ids, AtMost);
    AtMostIsTotalPreorder();
    SortOrders(ids, AtMost);
    forall id ensures id in c.supportingPairs <==> exists p :: IsWithin(pairs, c.members, p) && p.id == id {
      IdsWithinAre(pairs, c.members, id);
    }
    if c.confidence == Strong {
      var p :| p in pairs && Inside(c.members, p.a, p.b) && ConfidenceOf(p.signals, t) == Strong;
      assert IsWithin(pairs, c.members, p);
    } else if c.confidence == Moderate {
      var p :| p in pairs && Inside(c.members, p.a, p.b) && ConfidenceOf(p.signals, t) == Moderate;
      assert IsWithin(pairs, c.members, p);
    }
  }

  function MembersOf(candidates: seq<Candidate>): seq<seq<string>> {
    seq(|candidates|, i requires 0 <= i < |candidates| => candidates[i].members)
  }

  method BuildCandidates(purpose: Purpose, pairs: seq<Pair>, t: real) returns (candidates: seq<Candidate>)
    ensures IsComponentReport(AdmittedLinks(purpose, pairs, t), MembersOf(candidates))
    ensures forall c :: c in candidates ==> Describes(pairs, t, c)
  {
    hide ClassifiesAll, AdmittedLinks, IsComponentReport, Describes;
    var entries := ClassifyAll(pairs, t);
    var edges := EdgesOf(purpose, pairs, t, entries);
    var groups := ConnectedComponents(edges);
    candidates := [];
    var i := 0;
    while i < |groups|
      invariant 0 <= i <= |groups| && |candidates| == i
      invariant forall k :: 0 <= k < i ==> candidates[k].members == groups[k]
      invariant forall c :: c in candidates ==> Describes(pairs, t, c)
    {
      var c := Describe(pairs, t, entries, groups[i]);
      candidates := candidates + [c];
      i := i + 1;
    }
    assert MembersOf(candidates) == groups;
  }

  // ---------- more evidence ----------

  /** A pair that says at least as much about the same two artifacts. */
  predicate Extends(p: Pair, q: Pair) {
    q.a == p.a && q.b == p.b && Within(p.signals, q.signals)
  }

  /** Signals may be added to any pair, and pairs may be added. */
  ghost predicate MoreEvidence(pairs: seq<Pair>, more: seq<Pair>) {
    forall p :: p in pairs ==> exists q :: q in more && Extends(p, q)
  }

  lemma {:induction false} MoreLinks(purpose: Purpose, pairs: seq<Pair>, more: seq<Pair>, t: real)
    requires MoreEvidence(pairs, more)
    ensures AdmittedLinks(purpose, pairs, t) <= AdmittedLinks(purpose, more, t)
  {
    hide ConfidenceOf, ProjectEvidence, Within;
    forall p | p in pairs && Admits(purpose, p, t) ensures (p.a, p.b) in AdmittedLinks(purpose, more, t) {
      var q :| q in more && Extends(p, q);
      MoreEvidenceNeverWeakens(p.signals, q.signals, t);
      assert Admits(purpose, q, t);
    }
  }

  lemma {:induction false} StrongestGrows(pairs: seq<Pair>, more: seq<Pair>, members: seq<string>, others: seq<string>, t: real)
    requires MoreEvidence(pairs, more) && forall x :: x in members ==> x in others
    ensures Rank(StrongestIn(pairs, members, t)) <= Rank(StrongestIn(more, others, t))
  {
    hide ConfidenceOf, Within;
    forall p | p in pairs && Inside(members, p.a, p.b)
      ensures exists q :: q in more && Inside(others, q.a, q.b)
                          && Rank(ConfidenceOf(p.signals, t)) <= Rank(ConfidenceOf(q.signals, t))
    {
      var q :| q in more && Extends(p, q);
      MoreEvidenceNeverWeakens(p.signals, q.signals, t);
    }
  }

  /** With more evidence every old component lies inside one new component, of a class at least as strong. */
  lemma {:induction false} EvidenceNeverSplits(purpose: Purpose, pairs: seq<Pair>, more: seq<Pair>, t: real,
                                               components: seq<seq<string>>, others: seq<seq<string>>, c: seq<string>)
    requires MoreEvidence(pairs, more) && c in components
    requires IsComponentReport(AdmittedLinks(purpose, pairs, t), components)
    requires IsComponentReport(AdmittedLinks(purpose, more, t), others)
    ensures exists d :: d in others && (forall x :: x in c ==> x in d)
                        && Rank(StrongestIn(pairs, c, t)) <= Rank(StrongestIn(more, d, t))
  {
    hide AdmittedLinks, IsComponentReport, StrongestIn, MoreEvidence;
    MoreLinks(purpose, pairs, more, t);
    ComponentsNeverSplit(AdmittedLinks(purpose, pairs, t), AdmittedLinks(purpose, more, t), components, others, c);
    var d :| d in others && forall x :: x in c ==> x in d;
    StrongestGrows(pairs, more, c, d, t);
  }

  lemma {:induction false} ComponentHoldsLink(links: set<Link>, c: seq<string>)
    requires IsComponent(links, c)
    ensures exists l :: l in links && Inside(c, l.0, l.1)
  {
    var x, y := c[0], c[1];
    assert x in c && y in c && x != y;
    assert InSameComponent(links, c, x, y);
    var p :| Path<string>(links, p, x, y);
    assert Adjacent<string>(links, p[0], p[0 + 1]);
    EdgeConnects<string>(links, if (x, p[1]) in links then (x, p[1]) else (p[1], x));
    if (x, p[1]) !in links { ConnectedSymm<string>(links, p[1], x); }
    assert InSameComponent(links, c, x, p[1]);
  }

  /** Every topic candidate has corroborated evidence inside it; a candidate is never weak. */
  lemma {:induction false} TopicCandidateIsNotWeak(pairs: seq<Pair>, t: real, components: seq<seq<string>>, c: seq<string>)
    requires IsComponentReport(AdmittedLinks(Topic, pairs, t), components) && c in components
    ensures StrongestIn(pairs, c, t) != Weak
  {
    hide ConfidenceOf;
    ComponentHoldsLink(AdmittedLinks(Topic, pairs, t), c);
    hide IsComponent, Covers, IsComponentReport;
    var l :| l in AdmittedLinks(Topic, pairs, t) && Inside(c, l.0, l.1);
    var p :| p in pairs && Admits(Topic, p, t) && l == (p.a, p.b);
  }
}
