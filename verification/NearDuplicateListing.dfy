/** What the near-duplicate report says, read off its candidates alone. */
module NearDuplicateListing {
  import opened Ordering
  import opened SetJoin
  import opened NearDuplicates

  /** `score` is the number of millionths nearest to shared over united, halves upwards; nothing over nothing is none. */
  predicate IsRounded(score: nat, shared: nat, union: nat) {
    if union == 0 then score == 0
    else 2 * score * union <= 2 * 1000000 * shared + union < 2 * (score + 1) * union
  }

  /** `c` is about `x` and `y`, the smaller id first, and every field of it is theirs. */
  ghost predicate IsAbout(c: Candidate, x: Document, y: Document, t: int) {
    && Before(x.artifactId, y.artifactId)
    && c.aId == x.artifactId && c.aPath == x.sourcePath && c.aHash == x.normalizedContentHash
    && c.bId == y.artifactId && c.bPath == y.sourcePath && c.bHash == y.normalizedContentHash
    && c.shared == |x.shingles * y.shingles| && c.union == |x.shingles + y.shingles|
    && IsRounded(c.score, c.shared, c.union) && c.threshold == t
  }

  /** The pairs to report: two different contents whose rounded score reaches the threshold. */
  ghost predicate IsDue(c: Candidate, documents: seq<Document>, t: int) {
    exists x, y :: x in documents && y in documents && x.contentHash != y.contentHash && IsAbout(c, x, y, t) && c.score >= t
  }

  lemma {:induction false} QuotientIsRounded(shared: nat, union: nat, score: nat)
    requires union > 0
    ensures IsRounded(score, shared, union) <==> score == RoundedScore(shared, union)
  {
    var n, d := 2 * SCORE_UNIT * shared + union, 2 * union;
    FloorReaches(n, d, score);
    FloorReaches(n, d, score + 1);
    assert 2 * score * union == d * score && 2 * (score + 1) * union == d * (score + 1);
    assert RoundedScore(shared, union) == n / d;
    Between(n / d, score);
  }

  lemma {:induction false} Between(q: nat, score: nat)
    ensures q >= score && !(q >= score + 1) <==> q == score
  {}

  lemma {:induction false} ScoreIsRounded(x: Document, y: Document, score: nat)
    ensures IsRounded(score, |x.shingles * y.shingles|, |x.shingles + y.shingles|) <==> score == Score(x, y)
  {
    UnionSizeIsUnion(x.shingles, y.shingles);
    hide RoundedScore, IsRounded;
    if |x.shingles + y.shingles| > 0 {
      QuotientIsRounded(|x.shingles * y.shingles|, |x.shingles + y.shingles|, score);
    } else {
      NothingShared(score, |x.shingles * y.shingles|);
      assert x.shingles + y.shingles == {} && x.shingles * y.shingles == {};
    }
  }

  lemma {:induction false} NothingShared(score: nat, shared: nat)
    ensures IsRounded(score, shared, 0) <==> score == RoundedScore(shared, 0)
  {}

  lemma {:induction false} AboutIff(c: Candidate, x: Document, y: Document, t: int)
    requires Before(x.artifactId, y.artifactId)
    ensures IsAbout(c, x, y, t) <==> c == CandidateFor(x, y, t)
  {
    ScoreIsRounded(x, y, c.score);
    UnionSizeIsUnion(x.shingles, y.shingles);
    hide IsRounded, Score, AtMost;
  }

  lemma {:induction false} DueIff(documents: seq<Document>, t: int, c: Candidate)
    requires DistinctIds(documents)
    ensures IsDue(c, documents, t) <==> IsCandidateOf(documents, t, c)
  {
    hide CandidateFor, IsAbout, Score;
    if x, y :| x in documents && y in documents && x.contentHash != y.contentHash && IsAbout(c, x, y, t) && c.score >= t {
      AboutOrdered(c, x, y, t);
      AboutIff(c, x, y, t);
      CandidateScore(x, y, t);
      assert Reported(x, y, t);
    }
    if IsCandidateOf(documents, t, c) {
      var x, y :| x in documents && y in documents && x != y && Reported(x, y, t) && c == CandidateFor(x, y, t);
      IdsApart(documents, x, y);
      PairIsSymmetric(x, y, t);
      AtMostTotal(x.artifactId, y.artifactId);
      var a, b := if AtMost(x.artifactId, y.artifactId) then x else y, if AtMost(x.artifactId, y.artifactId) then y else x;
      AboutIff(c, a, b, t);
      CandidateScore(x, y, t);
      assert a in documents && b in documents && a.contentHash != b.contentHash && IsAbout(c, a, b, t);
    }
  }

  lemma {:induction false} AboutOrdered(c: Candidate, x: Document, y: Document, t: int)
    requires IsAbout(c, x, y, t)
    ensures Before(x.artifactId, y.artifactId)
  {}

  lemma {:induction false} CandidateScore(x: Document, y: Document, t: int)
    ensures CandidateFor(x, y, t).score == Score(x, y)
  {}

  lemma {:induction false} IdsApart(documents: seq<Document>, x: Document, y: Document)
    requires DistinctIds(documents) && x in documents && y in documents && x != y
    ensures x.artifactId != y.artifactId
  {
    var i :| 0 <= i < |documents| && documents[i] == x;
    var j :| 0 <= j < |documents| && documents[j] == y;
  }

  /** Highest score first, then by the two ids. */
  predicate Precedes(c: Candidate, d: Candidate) {
    || c.score > d.score
    || (c.score == d.score && (Before(c.aId, d.aId) || (c.aId == d.aId && Before(c.bId, d.bId))))
  }

  /** The report lists exactly the candidates that are due, each once, highest score first. */
  lemma {:induction false} ReportListsWhatIsDue(documents: seq<Document>, t: int)
    requires DistinctIds(documents)
    ensures forall c :: c in Reference(documents, t) <==> IsDue(c, documents, t)
    ensures forall i, j :: 0 <= i < j < |Reference(documents, t)| ==>
              Precedes(Reference(documents, t)[i], Reference(documents, t)[j])
  {
    hide Reference, IsDue, IsCandidateOf, DistinctIds;
    ReferenceIsTheReport(documents, t);
    forall c ensures c in Reference(documents, t) <==> IsDue(c, documents, t) { DueIff(documents, t, c); }
    var r := Reference(documents, t);
    forall i, j | 0 <= i < j < |r| ensures Precedes(r[i], r[j]) {
      assert CandidateAtMost(r[i], r[j]);
    }
  }
}
