/**
 The near-duplicate pass of src/corpus_analysis.ts: the indexed generator against the all-pairs
 reference beside it. Scores and thresholds are whole micro-units; `t` is the rounded threshold.
 */
module NearDuplicates {
  import opened Ordering
  import opened SetJoin

  const SCORE_UNIT: nat := 1_000_000
  /** Two micro-units per unit, so the half-unit-lowered bound stays an integer. */
  const ADMITTED_DENOMINATOR: nat := 2_000_000

  datatype Document = Document(
    artifactId: string,
    sourcePath: string,
    contentHash: string,
    normalizedContentHash: string,
    shingles: set<string>)

  datatype Candidate = Candidate(
    aId: string, bId: string,
    aPath: string, bPath: string,
    score: nat, threshold: int,
    aHash: string, bHash: string,
    shared: nat, union: nat)

  // ---------- one pair ----------

  /** `Math.round(1e6 * shared / union)`, zero for two empty sets. */
  function RoundedScore(shared: nat, union: nat): nat {
    if union == 0 then 0 else (2 * SCORE_UNIT * shared + union) / (2 * union)
  }

  function Score(x: Document, y: Document): nat {
    UnionSizeIsUnion(x.shingles, y.shingles);
    RoundedScore(|x.shingles * y.shingles|, UnionSize(x.shingles, y.shingles))
  }

  function AdmittedNumerator(t: int): int {
    2 * t - 1
  }

  /** A pair is reported: not byte-identical, and its rounded score reaches the rounded threshold. */
  predicate Reported(x: Document, y: Document, t: int) {
    x.contentHash != y.contentHash && Score(x, y) >= t
  }

  function CandidateFor(left: Document, right: Document, t: int): Candidate {
    UnionSizeIsUnion(left.shingles, right.shingles);
    var (a, b) := if AtMost(left.artifactId, right.artifactId) then (left, right) else (right, left);
    Candidate(a.artifactId, b.artifactId, a.sourcePath, b.sourcePath,
              Score(left, right), t, a.normalizedContentHash, b.normalizedContentHash,
              |left.shingles * right.shingles|, UnionSize(left.shingles, right.shingles))
  }

  /** The integer filter bound is the rounded test, not a stricter one: `2 * t - 1` half micro-units. */
  lemma {:induction false} RoundedTestIsIntegerTest(x: Document, y: Document, t: nat)
    requires t > 0
    ensures Score(x, y) >= t <==>
            UnionSize(x.shingles, y.shingles) > 0
            && Reaches(AdmittedNumerator(t), ADMITTED_DENOMINATOR, x.shingles, y.shingles)
  {
    UnionSizeIsUnion(x.shingles, y.shingles);
    var u := UnionSize(x.shingles, y.shingles);
    if u > 0 {
      HalfUnitLower(2 * SCORE_UNIT * |x.shingles * y.shingles|, u, t);
    }
  }

  /** Rounding `n / 2u` half up reaches `t` exactly when `n` reaches `t` less half a unit. */
  lemma {:induction false} HalfUnitLower(n: nat, u: nat, t: nat)
    requires u > 0
    ensures (n + u) / (2 * u) >= t <==> n >= (2 * t - 1) * u
  {
    FloorReaches(n + u, 2 * u, t);
    assert 2 * u * t == (2 * t - 1) * u + u;
  }

  lemma {:induction false} FloorReaches(n: nat, d: nat, t: nat)
    requires d > 0
    ensures n / d >= t <==> n >= d * t
  {
    var q := n / d;
    assert d * q <= n < d * (q + 1);
    if q >= t { assert d * q >= d * t; } else { assert d * (q + 1) <= d * t; }
  }

  lemma {:induction false} PairIsSymmetric(x: Document, y: Document, t: int)
    ensures Reported(x, y, t) == Reported(y, x, t)
    ensures x.artifactId != y.artifactId ==> CandidateFor(x, y, t) == CandidateFor(y, x, t)
  {
    UnionSizeIsUnion(x.shingles, y.shingles);
    AtMostTotal(x.artifactId, y.artifactId);
  }

  // ---------- the order of a report ----------

  predicate CandidateAtMost(c: Candidate, d: Candidate) {
    if c.score != d.score then c.score > d.score
    else if c.aId != d.aId then AtMost(c.aId, d.aId)
    else AtMost(c.bId, d.bId)
  }

  lemma {:induction false} CandidateOrderIsTotal()
    ensures TotalPreorder(CandidateAtMost)
    ensures forall c, d :: CandidateAtMost(c, d) && CandidateAtMost(d, c) ==> c.aId == d.aId && c.bId == d.bId
  {
    forall c, d
      ensures CandidateAtMost(c, d) || CandidateAtMost(d, c)
      ensures CandidateAtMost(c, d) && CandidateAtMost(d, c) ==> c.aId == d.aId && c.bId == d.bId
    {
      AtMostTotal(c.aId, d.aId);
      AtMostTotal(c.bId, d.bId);
    }
    forall c, d, e | CandidateAtMost(c, d) && CandidateAtMost(d, e) ensures CandidateAtMost(c, e) {
      AtMostIsTotalPreorder();
      AtMostTotal(c.aId, d.aId);
      AtMostTotal(d.aId, e.aId);
    }
  }

  predicate SmallerFirst(x: Document, y: Document) {
    if |x.shingles| != |y.shingles| then |x.shingles| < |y.shingles| else AtMost(x.artifactId, y.artifactId)
  }

  lemma {:induction false} SizeOrderIsTotal()
    ensures TotalPreorder(SmallerFirst)
  {
    AtMostIsTotalPreorder();
  }

  ghost predicate DistinctIds(documents: seq<Document>) {
    forall i, j :: 0 <= i < j < |documents| ==> documents[i].artifactId != documents[j].artifactId
  }

  // ---------- the reference ----------

  function Found(x: Document, y: Document, t: int): seq<Candidate> {
    if Reported(x, y, t) then [CandidateFor(x, y, t)] else []
  }

  /** What the inner loop collects for one `x` over the rest of the list. */
  function Row(x: Document, others: seq<Document>, t: int): seq<Candidate> {
    if others == [] then [] else Found(x, others[0], t) + Row(x, others[1..], t)
  }

  /** Every pair of the list, each once, in the order of the two nested loops. */
  function AllPairs(documents: seq<Document>, t: int): seq<Candidate> {
    if documents == [] then [] else Row(documents[0], documents[1..], t) + AllPairs(documents[1..], t)
  }

  /** What the score means: every reported pair, sorted. */
  function Reference(documents: seq<Document>, t: int): seq<Candidate> {
    Sort(AllPairs(documents, t), CandidateAtMost)
  }

  /** `c` is the candidate of two different documents of the list that the test reports. */
  ghost predicate IsCandidateOf(documents: seq<Document>, t: int, c: Candidate) {
    exists x, y :: x in documents && y in documents && x != y && Reported(x, y, t) && c == CandidateFor(x, y, t)
  }

  lemma {:induction false} NoneToPair(x: Document, t: int)
    ensures Row(x, [], t) == []
  {}

  lemma {:induction false} NoPairs(t: int)
    ensures AllPairs([], t) == []
  {}

  lemma {:induction false} RowStep(x: Document, documents: seq<Document>, j: nat, t: int)
    requires j < |documents|
    ensures Row(x, documents[j..], t) == Found(x, documents[j], t) + Row(x, documents[j + 1..], t)
  {
    hide Found;
    assert documents[j..][1..] == documents[j + 1..];
  }

  lemma {:induction false} PairsStep(documents: seq<Document>, i: nat, t: int)
    requires i < |documents|
    ensures AllPairs(documents[i..], t) == Row(documents[i], documents[i + 1..], t) + AllPairs(documents[i + 1..], t)
  {
    hide Row;
    assert documents[i..][1..] == documents[i + 1..];
  }

  method NearDuplicatesExhaustive(documents: seq<Document>, t: int) returns (out: seq<Candidate>)
    ensures out == Reference(documents, t)
  {
    hide Found, Reported, CandidateFor, Row, AllPairs, Sort;
    var list := [];
    var i := 0;
    assert documents[0..] == documents;
    while i < |documents|
      invariant 0 <= i <= |documents|
      invariant list + AllPairs(documents[i..], t) == AllPairs(documents, t)
    {
      ghost var before := list;
      var j := i + 1;
      while j < |documents|
        invariant i < j <= |documents|
        invariant list + Row(documents[i], documents[j..], t) == before + Row(documents[i], documents[i + 1..], t)
      {
        RowStep(documents[i], documents, j, t);
        list, j := list + Found(documents[i], documents[j], t), j + 1;
      }
      NoneToPair(documents[i], t);
      PairsStep(documents, i, t);
      assert documents[j..] == [] && list + [] == list;
      assert list + AllPairs(documents[i + 1..], t)
             == before + (Row(documents[i], documents[i + 1..], t) + AllPairs(documents[i + 1..], t));
      i := i + 1;
    }
    NoPairs(t);
    assert documents[i..] == [] && list + [] == list;
    out := Sort(list, CandidateAtMost);
  }

  lemma {:induction false} RowMembers(x: Document, others: seq<Document>, t: int, c: Candidate)
    ensures c in Row(x, others, t) <==> IsCandidateWith(x, others, t, c)
  {
    if others == [] {
    } else {
      RowMembers(x, others[1..], t, c);
    }
  }

  /** `c` comes from `x` and one of the others. */
  ghost predicate IsCandidateWith(x: Document, others: seq<Document>, t: int, c: Candidate) {
    exists y :: y in others && Reported(x, y, t) && c == CandidateFor(x, y, t)
  }

  lemma {:induction false} CandidateSplit(x: Document, rest: seq<Document>, t: int, c: Candidate)
    requires DistinctIds([x] + rest)
    ensures IsCandidateOf([x] + rest, t, c) <==> IsCandidateWith(x, rest, t, c) || IsCandidateOf(rest, t, c)
  {
    hide Reported, CandidateFor;
    HeadIsApart(x, rest);
    hide DistinctIds;
    var all := [x] + rest;
    assert forall y :: y in all <==> y == x || y in rest;
    if IsCandidateOf(all, t, c) {
      var y, z :| y in all && z in all && y != z && Reported(y, z, t) && c == CandidateFor(y, z, t);
      PairIsSymmetric(y, z, t);
    }
    if IsCandidateWith(x, rest, t, c) {
      var y :| y in rest && Reported(x, y, t) && c == CandidateFor(x, y, t);
      assert x in all && y in all && x != y;
    }
  }

  lemma {:induction false} HeadIsApart(x: Document, rest: seq<Document>)
    requires DistinctIds([x] + rest)
    ensures forall y :: y in rest ==> y.artifactId != x.artifactId
  {
    forall y | y in rest ensures y.artifactId != x.artifactId {
      var i :| 0 <= i < |rest| && rest[i] == y;
      assert ([x] + rest)[0] == x && ([x] + rest)[i + 1] == y;
    }
  }

  lemma {:induction false} AllPairsMembers(documents: seq<Document>, t: int, c: Candidate)
    requires DistinctIds(documents)
    ensures c in AllPairs(documents, t) <==> IsCandidateOf(documents, t, c)
  {
    if documents == [] {
    } else {
      var x, rest := documents[0], documents[1..];
      assert documents == [x] + rest;
      AllPairsMembers(rest, t, c);
      RowMembers(x, rest, t, c);
      CandidateSplit(x, rest, t, c);
    }
  }

  /** A canonical pair of ids names one pair of documents. */
  lemma {:induction false} CandidateNamesPair(documents: seq<Document>, t: int, i: nat, j: nat, k: nat, m: nat)
    requires DistinctIds(documents)
    requires i < |documents| && j < |documents| && k < |documents| && m < |documents| && i != j && k != m
    requires CandidateFor(documents[i], documents[j], t).aId == CandidateFor(documents[k], documents[m], t).aId
    requires CandidateFor(documents[i], documents[j], t).bId == CandidateFor(documents[k], documents[m], t).bId
    ensures (i == k && j == m) || (i == m && j == k)
  {}

  lemma {:induction false} RowDistinct(x: Document, others: seq<Document>, t: int)
    requires DistinctIds(others) && forall y :: y in others ==> y.artifactId != x.artifactId
    ensures Distinct(Row(x, others, t))
  {
    if others == [] {
    } else {
      RowDistinct(x, others[1..], t);
      var c := CandidateFor(x, others[0], t);
      RowMembers(x, others[1..], t, c);
      forall y | y in others[1..] ensures c != CandidateFor(x, y, t) {
        assert y.artifactId != others[0].artifactId;
      }
    }
  }

  lemma {:induction false} DistinctConcat<T>(s: seq<T>, t: seq<T>)
    requires Distinct(s) && Distinct(t) && forall x :: x in s ==> x !in t
    ensures Distinct(s + t)
  {
    forall i, j | 0 <= i < j < |s + t| ensures (s + t)[i] != (s + t)[j] {
      if i < |s| <= j { assert s[i] in s && t[j - |s|] in t; }
    }
  }

  lemma {:induction false} AllPairsDistinct(documents: seq<Document>, t: int)
    requires DistinctIds(documents)
    ensures Distinct(AllPairs(documents, t))
  {
    if documents == [] {
    } else {
      var x, rest := documents[0], documents[1..];
      assert documents == [x] + rest;
      AllPairsDistinct(rest, t);
      RowDistinct(x, rest, t);
      forall c | c in Row(x, rest, t) ensures c !in AllPairs(rest, t) {
        RowMembers(x, rest, t, c);
        AllPairsMembers(rest, t, c);
        assert c.aId == x.artifactId || c.bId == x.artifactId;
        assert forall y :: y in rest ==> y.artifactId != x.artifactId;
      }
      DistinctConcat(Row(x, rest, t), AllPairs(rest, t));
    }
  }

  /**
   The report, said without loops: it holds exactly the candidates of two different documents
   the test reports, each once, highest score first.
   */
  lemma {:induction false} ReferenceIsTheReport(documents: seq<Document>, t: int)
    requires DistinctIds(documents)
    ensures forall c :: c in Reference(documents, t) <==> IsCandidateOf(documents, t, c)
    ensures Distinct(Reference(documents, t)) && Ordered(CandidateAtMost, Reference(documents, t))
    ensures forall i, j :: 0 <= i < j < |Reference(documents, t)| ==>
              Reference(documents, t)[i].aId != Reference(documents, t)[j].aId
              || Reference(documents, t)[i].bId != Reference(documents, t)[j].bId
  {
    var r := Reference(documents, t);
    CandidateOrderIsTotal();
    AllPairsDistinct(documents, t);
    SortKeepsDistinct(AllPairs(documents, t), CandidateAtMost);
    SortKeepsMembers(AllPairs(documents, t), CandidateAtMost);
    SortOrders(AllPairs(documents, t), CandidateAtMost);
    forall c ensures c in r <==> IsCandidateOf(documents, t, c) {
      AllPairsMembers(documents, t, c);
    }
    forall i, j | 0 <= i < j < |r| ensures r[i].aId != r[j].aId || r[i].bId != r[j].bId {
      SameIdsSameCandidate(documents, t, r[i], r[j]);
    }
  }

  lemma {:induction false} SameIdsSameCandidate(documents: seq<Document>, t: int, c: Candidate, d: Candidate)
    requires DistinctIds(documents) && IsCandidateOf(documents, t, c) && IsCandidateOf(documents, t, d)
    ensures c.aId == d.aId && c.bId == d.bId ==> c == d
  {
    var x, y :| x in documents && y in documents && x != y && Reported(x, y, t) && c == CandidateFor(x, y, t);
    var z, w :| z in documents && w in documents && z != w && Reported(z, w, t) && d == CandidateFor(z, w, t);
    hide Reported, CandidateFor, DistinctIds;
    if c.aId == d.aId && c.bId == d.bId {
      var i: nat :| i < |documents| && documents[i] == x;
      var j: nat :| j < |documents| && documents[j] == y;
      var k: nat :| k < |documents| && documents[k] == z;
      var m: nat :| m < |documents| && documents[m] == w;
      CandidateNamesPair(documents, t, i, j, k, m);
      TwoIdsDiffer(documents, i, j);
      PairIsSymmetric(x, y, t);
    }
  }

  lemma {:induction false} TwoIdsDiffer(documents: seq<Document>, i: nat, j: nat)
    requires DistinctIds(documents) && i < |documents| && j < |documents| && i != j
    ensures documents[i].artifactId != documents[j].artifactId
  {
    if i < j {
    } else {
      assert documents[j].artifactId != documents[i].artifactId;
    }
  }

  // ---------- the indexed pass ----------

  /** `emitted` names, entry by entry, the positions the candidates in `out` were measured at. */
  ghost predicate Emits(ordered: seq<Document>, t: int, out: seq<Candidate>, emitted: seq<(nat, nat)>) {
    && |emitted| == |out|
    && Distinct(emitted)
    && forall m :: 0 <= m < |out| ==>
         && emitted[m].1 < emitted[m].0 < |ordered|
         && out[m] == CandidateFor(ordered[emitted[m].0], ordered[emitted[m].1], t)
  }

  /** The pairs emitted so far are the reported ones below position `n`. */
  ghost predicate EmittedBelow(ordered: seq<Document>, t: int, emitted: seq<(nat, nat)>, n: nat) {
    && n <= |ordered|
    && forall r: nat, q: nat :: (r, q) in emitted <==> q < r < n && Reported(ordered[r], ordered[q], t)
  }

  /** Measure the current document against every partner its prefix reaches, each once. */
  method CompareWithOffered(ordered: seq<Document>, t: nat, position: nat, prefix: seq<string>,
                            postings: map<string, seq<nat>>, out0: seq<Candidate>, ghost emitted0: seq<(nat, nat)>)
      returns (out: seq<Candidate>, ghost emitted: seq<(nat, nat)>)
    requires t > 0 && position < |ordered| && Emits(ordered, t, out0, emitted0)
    requires Ordered(SmallerFirst, ordered)
    requires forall s, k: nat :: Posted(postings, s, k) ==> k < position
    requires forall e :: e in emitted0 ==> e.0 < position
    ensures Emits(ordered, t, out, emitted)
    ensures forall r: nat, q: nat :: (r, q) in emitted <==>
              (r, q) in emitted0
              || (r == position && Offered(postings, prefix, q) && Reported(ordered[position], ordered[q], t))
  {
    hide Score, CandidateFor;
    var current := ordered[position];
    var size := |current.shingles|;
    var seen: set<nat> := {};
    out, emitted := out0, emitted0;
    var i := 0;
    while i < |prefix|
      invariant 0 <= i <= |prefix|
      invariant Emits(ordered, t, out, emitted)
      invariant forall k: nat :: k in seen <==> Offered(postings, prefix[..i], k)
      invariant forall s, k: nat :: Posted(postings, s, k) ==> k < position
      invariant forall k: nat :: k in seen ==> k < position
      invariant forall r: nat, q: nat :: (r, q) in emitted <==>
                  (r, q) in emitted0 || (r == position && q in seen && Reported(current, ordered[q], t))
    {
      var bucket := if prefix[i] in postings then postings[prefix[i]] else [];
      ghost var before := seen;
      var j := 0;
      while j < |bucket|
        invariant 0 <= j <= |bucket|
        invariant Emits(ordered, t, out, emitted)
        invariant forall k: nat :: k in seen <==> k in before || k in bucket[..j]
        invariant forall k: nat :: k in seen ==> k < position
        invariant forall r: nat, q: nat :: (r, q) in emitted <==>
                    (r, q) in emitted0 || (r == position && q in seen && Reported(current, ordered[q], t))
      {
        var other := bucket[j];
        assert bucket[..j + 1] == bucket[..j] + [other];
        assert Posted(postings, prefix[i], other);
        if other !in seen {
          assert (position, other) !in emitted;
          seen := seen + {other};
          var partner := ordered[other];
          assert SmallerFirst(partner, current);
          if ADMITTED_DENOMINATOR * |partner.shingles| < AdmittedNumerator(t) * size {
            TooSmallIsUnreported(current, partner, t);
          } else if Reported(current, partner, t) {
            out, emitted := out + [CandidateFor(current, partner, t)], emitted + [(position, other)];
          }
        }
        j := j + 1;
      }
      assert bucket[..|bucket|] == bucket;
      OfferedStep(postings, prefix, i);
      assert forall k: nat :: k in bucket <==> Posted(postings, prefix[i], k);
      i := i + 1;
    }
    assert prefix[..|prefix|] == prefix;
  }

  lemma {:induction false} TooSmallIsUnreported(current: Document, partner: Document, t: nat)
    requires t > 0
    requires ADMITTED_DENOMINATOR * |partner.shingles| < AdmittedNumerator(t) * |current.shingles|
    ensures !Reported(current, partner, t)
  {
    SizeBound(AdmittedNumerator(t), ADMITTED_DENOMINATOR, current.shingles, partner.shingles);
    RoundedTestIsIntegerTest(current, partner, t);
  }

  /** The prefix a document of this ranking is indexed and probed with. */
  ghost function PrefixOf(ranked: seq<string>, t: nat): seq<string>
    requires t > 0
  {
    Take(ranked, PrefixLength(|ranked|, AdmittedNumerator(t), ADMITTED_DENOMINATOR))
  }

  /** No reported pair is lost by indexing prefixes only. */
  lemma {:induction false} ReportedPairIsOffered(le: (string, string) -> bool, x: Document, rx: seq<string>, y: Document, ry: seq<string>,
                              t: nat) returns (s: string)
    requires t > 0 && Antisymmetric(le)
    requires Ranks(le, rx, x.shingles) && Ranks(le, ry, y.shingles) && Reported(x, y, t)
    ensures s in PrefixOf(rx, t) && s in PrefixOf(ry, t)
  {
    RoundedTestIsIntegerTest(x, y, t);
    UnionSizeIsUnion(x.shingles, y.shingles);
    assert x.shingles != {} by {
      MulMonotone(AdmittedNumerator(t), 1, UnionSize(x.shingles, y.shingles));
    }
    s := PrefixesMeet(le, rx, x.shingles, ry, y.shingles, AdmittedNumerator(t), ADMITTED_DENOMINATOR);
  }

  /** The postings hold exactly the prefixes of the documents visited so far. */
  ghost predicate Indexed(le: (string, string) -> bool, ordered: seq<Document>, t: nat,
                          rankings: seq<seq<string>>, postings: map<string, seq<nat>>)
  {
    && t > 0 && |rankings| <= |ordered|
    && (forall k :: 0 <= k < |rankings| ==> Ranks(le, rankings[k], ordered[k].shingles))
    && (forall s, k: nat :: Posted(postings, s, k) <==> k < |rankings| && s in PrefixOf(rankings[k], t))
  }

  lemma {:induction false} ReportedPairsAreOffered(le: (string, string) -> bool, ordered: seq<Document>, t: nat,
                                rankings: seq<seq<string>>, postings: map<string, seq<nat>>, ranked: seq<string>)
    requires Indexed(le, ordered, t, rankings, postings) && |rankings| < |ordered| && Antisymmetric(le)
    requires Ranks(le, ranked, ordered[|rankings|].shingles)
    ensures forall q: nat :: q < |rankings| && Reported(ordered[|rankings|], ordered[q], t) ==>
              Offered(postings, PrefixOf(ranked, t), q)
    ensures ranked == [] ==> PrefixOf(ranked, t) == []
  {
    var current := ordered[|rankings|];
    forall q: nat | q < |rankings| && Reported(current, ordered[q], t)
      ensures Offered(postings, PrefixOf(ranked, t), q)
    {
      var s := ReportedPairIsOffered(le, current, ranked, ordered[q], rankings[q], t);
      assert Posted(postings, s, q);
    }
  }

  lemma {:induction false} IndexedStep(le: (string, string) -> bool, ordered: seq<Document>, t: nat, rankings: seq<seq<string>>,
                                       postings: map<string, seq<nat>>, ranked: seq<string>, postings': map<string, seq<nat>>)
    requires Indexed(le, ordered, t, rankings, postings) && |rankings| < |ordered|
    requires Ranks(le, ranked, ordered[|rankings|].shingles)
    requires forall s, k: nat :: Posted(postings', s, k) <==>
               Posted(postings, s, k) || (s in PrefixOf(ranked, t) && k == |rankings|)
    ensures Indexed(le, ordered, t, rankings + [ranked], postings')
  {
    hide Ranks, Posted, PrefixOf;
  }

  lemma {:induction false} EmittedStep(ordered: seq<Document>, t: int, n: nat, postings: map<string, seq<nat>>, prefix: seq<string>,
                                       emitted: seq<(nat, nat)>, emitted': seq<(nat, nat)>)
    requires EmittedBelow(ordered, t, emitted, n) && n < |ordered|
    requires forall s, k: nat :: Posted(postings, s, k) ==> k < n
    requires forall q: nat :: q < n && Reported(ordered[n], ordered[q], t) ==> Offered(postings, prefix, q)
    requires forall r: nat, q: nat :: (r, q) in emitted' <==>
               (r, q) in emitted || (r == n && Offered(postings, prefix, q) && Reported(ordered[n], ordered[q], t))
    ensures EmittedBelow(ordered, t, emitted', n + 1)
  {
    hide Posted, Reported;
  }

  lemma {:induction false} EmittedAreBelow(ordered: seq<Document>, t: int, emitted: seq<(nat, nat)>, n: nat)
    requires EmittedBelow(ordered, t, emitted, n)
    ensures forall e :: e in emitted ==> e.0 < n
  {
    hide Reported;
    forall e | e in emitted ensures e.0 < n {
      assert (e.0, e.1) in emitted;
    }
  }

  lemma {:induction false} NothingYet(le: (string, string) -> bool, ordered: seq<Document>, t: nat)
    requires t > 0
    ensures Indexed(le, ordered, t, [], map[]) && Emits(ordered, t, [], []) && EmittedBelow(ordered, t, [], 0)
  {
    hide Reported, Ranks, PrefixOf;
  }

  lemma {:induction false} PostedBelow(le: (string, string) -> bool, ordered: seq<Document>, t: nat, rankings: seq<seq<string>>,
                                       postings: map<string, seq<nat>>)
    requires Indexed(le, ordered, t, rankings, postings)
    ensures forall s, k: nat :: Posted(postings, s, k) ==> k < |rankings|
  {
    hide Posted, PrefixOf, Ranks;
  }

  /**
   The indexed generator returns the very list the all-pairs reference returns, at every
   threshold: rounding to zero it takes the exhaustive path, above it the index.
   */
  method NearDuplicateCandidates(documents: seq<Document>, t: int) returns (out: seq<Candidate>)
    requires DistinctIds(documents)
    ensures out == Reference(documents, t)
  {
    hide Reported, CandidateFor, PrefixLength, Take, Indexed, EmittedBelow, Emits, Posted, DistinctIds, Sort,
         TotalPreorder, Ordered, Distinct;
    if t <= 0 {
      out := NearDuplicatesExhaustive(documents, t);
      return;
    }
    var frequency := DocumentFrequency(seq(|documents|, i requires 0 <= i < |documents| => documents[i].shingles));
    var le := GlobalOrder(frequency);
    GlobalOrderIsTotal(frequency);
    SizeOrderIsTotal();
    var ordered := Sort(documents, SmallerFirst);
    SortOrders(documents, SmallerFirst);
    var postings: map<string, seq<nat>> := map[];
    ghost var rankings: seq<seq<string>> := [];
    var list: seq<Candidate> := [];
    ghost var emitted: seq<(nat, nat)> := [];
    NothingYet(le, ordered, t);
    for position := 0 to |ordered|
      invariant |rankings| == position
      invariant Indexed(le, ordered, t, rankings, postings)
      invariant Emits(ordered, t, list, emitted)
      invariant EmittedBelow(ordered, t, emitted, position)
    {
      var current := ordered[position];
      var ranked := RankTerms(current.shingles, le);
      var prefix := Take(ranked, PrefixLength(|current.shingles|, AdmittedNumerator(t), ADMITTED_DENOMINATOR));
      assert prefix == PrefixOf(ranked, t);
      ReportedPairsAreOffered(le, ordered, t, rankings, postings, ranked);
      PostedBelow(le, ordered, t, rankings, postings);
      EmittedAreBelow(ordered, t, emitted, position);
      ghost var emitted0, postings0 := emitted, postings;
      if |current.shingles| != 0 {
        list, emitted := CompareWithOffered(ordered, t, position, prefix, postings, list, emitted);
        postings := IndexPrefix(postings, prefix, position);
      }
      EmittedStep(ordered, t, position, postings0, prefix, emitted0, emitted);
      IndexedStep(le, ordered, t, rankings, postings0, ranked, postings);
      rankings := rankings + [ranked];
    }
    AllPairsEmitted(documents, ordered, t, list, emitted);
    out := Sort(list, CandidateAtMost);
  }

  /** Once every reported pair of positions is emitted, the sorted output is the reference. */
  lemma {:induction false} AllPairsEmitted(documents: seq<Document>, ordered: seq<Document>, t: int,
                        list: seq<Candidate>, emitted: seq<(nat, nat)>)
    requires DistinctIds(documents) && ordered == Sort(documents, SmallerFirst)
    requires Emits(ordered, t, list, emitted)
    requires EmittedBelow(ordered, t, emitted, |ordered|)
    ensures Sort(list, CandidateAtMost) == Reference(documents, t)
  {
    var all := AllPairs(documents, t);
    SortedStaysDistinct(documents);
    forall c ensures c in list <==> c in all {
      AllPairsMembers(documents, t, c);
      ListHoldsCandidates(ordered, t, list, emitted, c);
      SortKeepsMembers(documents, SmallerFirst);
    }
    forall i, j | 0 <= i < j < |list| ensures list[i] != list[j] {
      if list[i] == list[j] {
        CandidateNamesPair(ordered, t, emitted[i].0, emitted[i].1, emitted[j].0, emitted[j].1);
      }
    }
    AllPairsDistinct(documents, t);
    CandidateOrderIsTotal();
    forall c, d | c in list && d in list && CandidateAtMost(c, d) && CandidateAtMost(d, c) ensures c == d {
      AllPairsMembers(documents, t, c);
      AllPairsMembers(documents, t, d);
      SameIdsSameCandidate(documents, t, c, d);
    }
    SortIsCanonical(CandidateAtMost, list, all);
  }

  lemma {:induction false} SortedStaysDistinct(documents: seq<Document>)
    requires DistinctIds(documents)
    ensures DistinctIds(Sort(documents, SmallerFirst))
  {
    var ordered := Sort(documents, SmallerFirst);
    SortKeepsDistinct(documents, SmallerFirst);
    SortKeepsMembers(documents, SmallerFirst);
    forall i, j | 0 <= i < j < |ordered| ensures ordered[i].artifactId != ordered[j].artifactId {
      assert ordered[i] in documents && ordered[j] in documents && ordered[i] != ordered[j];
    }
  }

  lemma {:induction false} ListHoldsCandidates(ordered: seq<Document>, t: int, list: seq<Candidate>, emitted: seq<(nat, nat)>, c: Candidate)
    requires DistinctIds(ordered) && Emits(ordered, t, list, emitted)
    requires EmittedBelow(ordered, t, emitted, |ordered|)
    ensures c in list <==> IsCandidateOf(ordered, t, c)
  {
    hide Score, CandidateFor;
    if c in list {
      var m :| 0 <= m < |list| && list[m] == c;
      assert emitted[m] in emitted;
      assert (emitted[m].0, emitted[m].1) in emitted;
    }
    if IsCandidateOf(ordered, t, c) {
      var x, y :| x in ordered && y in ordered && x != y && Reported(x, y, t) && c == CandidateFor(x, y, t);
      PairIsSymmetric(x, y, t);
      var i: nat :| i < |ordered| && ordered[i] == x;
      var j: nat :| j < |ordered| && ordered[j] == y;
      assert i != j;
      var e := if j < i then (i, j) else (j, i);
      assert (e.0, e.1) in emitted;
      var m :| 0 <= m < |emitted| && emitted[m] == e;
      assert list[m] == c;
    }
  }
}
