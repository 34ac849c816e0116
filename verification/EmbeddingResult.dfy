/** What a pass of the embedding pool has settled while nothing has failed, and when it fails. */
module EmbeddingResult {
  import opened Text
  import opened EmbeddingPool

  // ---------- the result, without a pool ----------

  predicate HitFromStart(input: Input, i: nat)
    requires i < |input.documents|
  {
    input.cached && input.documents[i].key in input.cache
  }

  function ReplyTo(input: Input, i: nat, k: nat): Reply
    requires i < |input.documents| && k < |input.documents[i].chunks|
  {
    input.answer(input.documents[i].chunks[k])
  }

  function Replies(input: Input, i: nat): seq<Vector>
    requires i < |input.documents|
  {
    seq(|input.documents[i].chunks|, k requires 0 <= k < |input.documents[i].chunks| =>
          if ReplyTo(input, i, k).Answer? then ReplyTo(input, i, k).vector else [])
  }

  /** A usable answer, of the run's dimension and from a revision already seen. */
  ghost predicate ReplyOk(input: Input, i: nat, k: nat, dimension: Option<nat>, revisions: set<string>)
    requires i < |input.documents| && k < |input.documents[i].chunks|
  {
    var reply := ReplyTo(input, i, k);
    && reply.Answer? && reply.vector != [] && reply.finite
    && dimension == Some(|reply.vector|)
    && (reply.revision.Some? ==> reply.revision.value in revisions)
  }

  ghost predicate DocumentOk(input: Input, i: nat, dimension: Option<nat>, revisions: set<string>)
    requires i < |input.documents|
  {
    if HitFromStart(input, i) then
      var entry := input.cache[input.documents[i].key];
      entry.vector != [] && entry.finite && dimension == Some(|entry.vector|)
    else
      forall k: nat :: k < |input.documents[i].chunks| ==> ReplyOk(input, i, k, dimension, revisions)
  }

  /** The vector a document is recorded with, if any. */
  function Expected(input: Input, i: nat): Option<Vector>
    requires i < |input.documents|
  {
    if HitFromStart(input, i) then Some(input.cache[input.documents[i].key].vector)
    else if input.documents[i].chunks == [] then None
    else Some(MeanOf(Replies(input, i)))
  }

  ghost predicate AtMostOne(revisions: set<string>) {
    forall a, b :: a in revisions && b in revisions ==> a == b
  }

  ghost predicate GoodFor(input: Input, but: set<nat>, d: nat, revisions: set<string>) {
    && AtMostOne(revisions)
    && forall i: nat :: i < |input.documents| && i !in but ==> DocumentOk(input, i, Some(d), revisions)
  }

  /** All documents but these are usable, in one dimension, from at most one model revision. */
  ghost predicate GoodBut(input: Input, but: set<nat>) {
    exists d: nat, revisions :: GoodFor(input, but, d, revisions)
  }

  ghost predicate Good(input: Input) {
    GoodBut(input, {})
  }

  ghost predicate DistinctIds(input: Input) {
    forall i, j :: 0 <= i < j < |input.documents| ==> input.documents[i].id != input.documents[j].id
  }

  /** Document `j` has text to file under a key the cache does not hold, and `i` comes later under that key. */
  predicate Shadows(input: Input, j: nat, i: nat) {
    && j < i < |input.documents| && input.cached
    && input.documents[j].key == input.documents[i].key && input.documents[j].key !in input.cache
    && input.documents[j].chunks != []
  }

  ghost predicate Shadowed(input: Input, i: nat) {
    exists j: nat :: Shadows(input, j, i)
  }

  ghost function Followers(input: Input): set<nat> {
    set i: nat | i < |input.documents| && Shadowed(input, i)
  }

  // ---------- what holds while nothing has failed ----------

  ghost predicate Clean(s: Pool) {
    s.failure.None? && forall w :: 0 <= w < |s.workers| ==> !s.workers[w].Failing?
  }

  ghost predicate Recorded(vectors: map<string, Vector>, id: string, expected: Option<Vector>) {
    match expected
    case None => id !in vectors
    case Some(v) => id in vectors && vectors[id] == v
  }

  /** Served from an entry made during the run. */
  predicate Borrowed(input: Input, s: Pool, i: nat)
    requires i < |input.documents|
  {
    i in s.hits && !HitFromStart(input, i)
  }

  ghost predicate OwnWell(input: Input, s: Pool, i: nat)
    requires i < |input.documents|
  {
    && DocumentOk(input, i, s.dimension, s.revisions)
    && Recorded(s.vectors, input.documents[i].id, Expected(input, i))
    && (HitFromStart(input, i) ==> i in s.hits)
  }

  /** Document `i` carries the mean that `j`, earlier under the same key, computed for itself. */
  ghost predicate Lends(input: Input, s: Pool, j: nat, i: nat) {
    && Shadows(input, j, i) && j in s.done && j !in s.hits
    && Recorded(s.vectors, input.documents[i].id, Expected(input, j))
  }

  ghost predicate DoneWell(input: Input, s: Pool, i: nat)
    requires i < |input.documents|
  {
    if Borrowed(input, s, i) then exists j: nat :: Lends(input, s, j, i) else OwnWell(input, s, i)
  }

  ghost predicate HeldWell(input: Input, s: Pool, i: nat, got: seq<Vector>)
    requires i < |input.documents| && |got| <= |input.documents[i].chunks|
  {
    && !HitFromStart(input, i)
    && forall k: nat :: k < |got| ==> ReplyOk(input, i, k, s.dimension, s.revisions) && got[k] == Replies(input, i)[k]
  }

  ghost predicate Made(input: Input, s: Pool, key: string, j: nat)
    requires key in s.cache
  {
    && j in s.done && j !in s.hits && j < |input.documents| && input.documents[j].key == key
    && input.documents[j].chunks != [] && s.cache[key] == Entry(MeanOf(Replies(input, j)), true)
  }

  /** A cache entry is from before the run or a finished document's mean, and every finished mean is filed. */
  ghost predicate CacheHonest(input: Input, s: Pool) {
    && (forall key :: key in input.cache ==> key in s.cache && s.cache[key] == input.cache[key])
    && (forall key :: key in s.cache && key !in input.cache ==> input.cached && exists j :: Made(input, s, key, j))
    && (forall j :: j in s.done && j < |input.documents| && input.cached && input.documents[j].chunks != [] ==>
          input.documents[j].key in s.cache)
  }

  ghost predicate Held(s: Pool, i: nat) {
    exists w :: 0 <= w < |s.workers| && s.workers[w].Waiting? && s.workers[w].document == i
  }

  predicate Says(input: Input, i: nat, k: nat, r: string) {
    && i < |input.documents| && k < |input.documents[i].chunks|
    && ReplyTo(input, i, k).Answer? && ReplyTo(input, i, k).revision == Some(r)
  }

  /** Some document other than these, asked for itself, is answered by revision `r`. */
  ghost predicate Seen(input: Input, but: set<nat>, r: string) {
    exists i: nat, k: nat :: i !in but && Says(input, i, k, r) && !HitFromStart(input, i)
  }

  ghost predicate Asked(input: Input, s: Pool, r: string) {
    exists i: nat, k: nat :: i < s.cursor && i !in s.hits && Says(input, i, k, r)
  }

  ghost predicate Progress(input: Input, s: Pool) {
    && (forall i :: i in s.done ==> i < |input.documents| && DoneWell(input, s, i))
    && (forall w :: 0 <= w < |s.workers| && s.workers[w].Waiting? ==>
          s.workers[w].document < |input.documents|
          && |s.workers[w].got| <= |input.documents[s.workers[w].document].chunks|
          && HeldWell(input, s, s.workers[w].document, s.workers[w].got))
    && CacheHonest(input, s)
    && (forall i: nat :: i < s.cursor && i < |input.documents| ==> i in s.done || Held(s, i))
    && (forall id :: id in s.vectors ==> exists i :: i in s.done && i < |input.documents| && input.documents[i].id == id)
    && AtMostOne(s.revisions) && (forall r :: r in s.revisions ==> Asked(input, s, r))
    && (forall w :: 0 <= w < |s.workers| && s.workers[w].Stopped? ==> s.cursor >= |input.documents|)
  }

  // ---------- growing a pool keeps what was established ----------

  /** `t` knows at least what `s` knew: a dimension once fixed stays, revisions and done only grow. */
  ghost predicate Grows(s: Pool, t: Pool) {
    && (s.dimension.Some? ==> t.dimension == s.dimension)
    && s.revisions <= t.revisions && s.done <= t.done
  }

  lemma {:induction false} DocumentStaysOk(input: Input, s: Pool, t: Pool, i: nat)
    requires i < |input.documents| && Grows(s, t) && DocumentOk(input, i, s.dimension, s.revisions)
    ensures DocumentOk(input, i, t.dimension, t.revisions)
  {
    if !HitFromStart(input, i) {
      forall k: nat | k < |input.documents[i].chunks| ensures ReplyOk(input, i, k, t.dimension, t.revisions) {
        assert ReplyOk(input, i, k, s.dimension, s.revisions);
      }
    }
  }

  lemma {:induction false} HeldStaysWell(input: Input, s: Pool, t: Pool, i: nat, got: seq<Vector>)
    requires i < |input.documents| && |got| <= |input.documents[i].chunks|
    requires Grows(s, t) && HeldWell(input, s, i, got)
    ensures HeldWell(input, t, i, got)
  {
    forall k: nat | k < |got|
      ensures ReplyOk(input, i, k, t.dimension, t.revisions) && got[k] == Replies(input, i)[k]
    {
      assert ReplyOk(input, i, k, s.dimension, s.revisions);
    }
  }

  lemma {:induction false} CardinalityOfOne(revisions: set<string>)
    ensures AtMostOne(revisions) <==> |revisions| <= 1
  {
    if r :| r in revisions {
      if AtMostOne(revisions) { assert revisions == {r}; }
      if |revisions| <= 1 {
        assert |revisions - {r}| == |revisions| - 1;
        assert revisions == {r} + (revisions - {r});
      }
    }
  }

  /** Vectors of documents other than `i` are as they were. */
  ghost predicate OthersKept(s: Pool, t: Pool, id: string) {
    forall other :: other != id ==>
      (other in t.vectors <==> other in s.vectors) && (other in s.vectors ==> t.vectors[other] == s.vectors[other])
  }

  /** The obligations of one clean turn on document `i`. */
  ghost predicate CleanTurn(input: Input, s: Pool, t: Pool, w: nat, i: nat) {
    && Effect(input, s, t, w, i) && Grows(s, t)
    && (t.done != s.done ==> i < |input.documents| && DoneWell(input, t, i))
    && (if i < |input.documents| then OthersKept(s, t, input.documents[i].id) else t.vectors == s.vectors)
    && (i in s.done ==> t.vectors == s.vectors && t.hits == s.hits)
    && (t.workers[w].Waiting? ==> HeldWell(input, t, i, t.workers[w].got))
    && CacheHonest(input, t)
    && AtMostOne(t.revisions) && (forall r :: r in t.revisions ==> Asked(input, t, r))
    && (t.workers[w].Stopped? ==> t.cursor >= |input.documents|)
    && (i < t.cursor && i < |input.documents| ==> i in t.done || t.workers[w].Waiting?)
    && t.cursor <= s.cursor + 1 && (t.cursor > s.cursor && s.cursor < |input.documents| ==> i == s.cursor)
  }

  lemma {:induction false} HitsGrowBy(input: Input, s: Pool, t: Pool, w: nat, i: nat)
    requires Effect(input, s, t, w, i)
    ensures t.hits == s.hits || t.hits == s.hits + {i}
    ensures s.done <= t.done
  {}

  lemma {:induction false} DoneStaysWell(input: Input, s: Pool, t: Pool, w: nat, i: nat, j: nat)
    requires DistinctIds(input) && CleanTurn(input, s, t, w, i)
    requires j in s.done && j < |input.documents| && DoneWell(input, s, j)
    ensures DoneWell(input, t, j)
  {
    hide Effect, HeldWell, CacheHonest, Asked, AtMostOne, MeanOf, HitFromStart;
    if j != i && i < |input.documents| {
      assert input.documents[j].id != input.documents[i].id;
    }
    HitsGrowBy(input, s, t, w, i);
    assert Borrowed(input, s, j) == Borrowed(input, t, j);
    if Borrowed(input, s, j) {
      var l: nat :| Lends(input, s, l, j);
      hide Expected, DocumentOk;
      assert Lends(input, t, l, j);
    } else {
      DocumentStaysOk(input, s, t, j);
      hide DocumentOk, Expected;
    }
  }

  lemma {:induction false} TakenStaysAccounted(input: Input, s: Pool, t: Pool, w: nat, i: nat, j: nat)
    requires CleanTurn(input, s, t, w, i) && i == Subject(s, w) && j < t.cursor && j < |input.documents|
    requires j < s.cursor ==> j in s.done || Held(s, j)
    ensures j in t.done || Held(t, j)
  {
    hide HeldWell, DoneWell, CacheHonest, Asked;
    if j == i {
      if t.workers[w].Waiting? { assert Held(t, j); }
    } else if j !in s.done {
      var v :| 0 <= v < |s.workers| && s.workers[v].Waiting? && s.workers[v].document == j;
      assert t.workers[v] == s.workers[v];
    }
  }

  lemma {:induction false} CleanTurnKeepsProgress(input: Input, s: Pool, t: Pool, w: nat, i: nat)
    requires DistinctIds(input) && Progress(input, s) && CleanTurn(input, s, t, w, i) && i == Subject(s, w)
    ensures Progress(input, t)
  {
    hide HeldWell, DoneWell, CacheHonest, Asked, AtMostOne;
    forall j | j in t.done ensures j < |input.documents| && DoneWell(input, t, j) {
      if j in s.done { DoneStaysWell(input, s, t, w, i, j); }
    }
    forall v | 0 <= v < |t.workers| && t.workers[v].Waiting?
      ensures t.workers[v].document < |input.documents|
              && |t.workers[v].got| <= |input.documents[t.workers[v].document].chunks|
              && HeldWell(input, t, t.workers[v].document, t.workers[v].got)
    {
      if v != w { HeldStaysWell(input, s, t, t.workers[v].document, t.workers[v].got); }
    }
    forall j: nat | j < t.cursor && j < |input.documents| ensures j in t.done || Held(t, j) {
      TakenStaysAccounted(input, s, t, w, i, j);
    }
    forall id | id in t.vectors
      ensures exists j :: j in t.done && j < |input.documents| && input.documents[j].id == id
    {
      if id in s.vectors {
        var j :| j in s.done && j < |input.documents| && input.documents[j].id == id;
        assert j in t.done;
      }
    }
  }

  // ---------- the turns ----------

  lemma {:induction false} CacheStaysHonest(input: Input, s: Pool, t: Pool)
    requires CacheHonest(input, s) && t.cache == s.cache && s.done <= t.done
    requires forall i :: i in t.hits && i !in s.hits ==> i !in s.done
    requires forall i :: i in t.done && i !in s.done && i < |input.documents| && input.cached && input.documents[i].chunks != [] ==>
               input.documents[i].key in s.cache
    ensures CacheHonest(input, t)
  {
    forall key | key in t.cache && key !in input.cache ensures exists j :: Made(input, t, key, j) {
      var j :| Made(input, s, key, j);
      assert Made(input, t, key, j);
    }
  }

  lemma {:induction false} MeanLength(vectors: seq<Vector>)
    requires vectors != []
    ensures |MeanOf(vectors)| == |vectors[0]|
  {}

  /** A hit on an entry made during the run is a hit on an earlier document's mean, in the run's dimension. */
  lemma {:induction false} HitIsBorrowed(input: Input, s: Pool, i: nat) returns (j: nat)
    requires Progress(input, s) && Structure(input, s) && i < |input.documents| && s.cursor <= i
    requires input.cached && input.documents[i].key in s.cache && !HitFromStart(input, i)
    ensures Shadows(input, j, i) && j in s.done && j !in s.hits
    ensures var entry := s.cache[input.documents[i].key];
            Expected(input, j) == Some(entry.vector) && entry.finite && entry.vector != [] && s.dimension == Some(|entry.vector|)
  {
    hide MeanOf, ReplyOk, Asked, AtMostOne, HeldWell;
    j :| Made(input, s, input.documents[i].key, j);
    assert DoneWell(input, s, j);
    MeanHasDimension(input, j, s.dimension, s.revisions);
  }

  lemma {:induction false} MeanHasDimension(input: Input, j: nat, dimension: Option<nat>, revisions: set<string>)
    requires j < |input.documents| && !HitFromStart(input, j) && input.documents[j].chunks != []
    requires DocumentOk(input, j, dimension, revisions)
    ensures MeanOf(Replies(input, j)) != [] && dimension == Some(|MeanOf(Replies(input, j))|)
  {
    assert ReplyOk(input, j, 0, dimension, revisions);
    MeanLength(Replies(input, j));
  }

  ghost predicate Before(input: Input, s: Pool, w: nat) {
    && w < |s.workers| && s.workers[w].Ready? && s.cursor < |input.documents| && s.failure.None?
    && Structure(input, s) && DistinctIds(input) && Progress(input, s)
  }

  function BeginAt(input: Input, s: Pool, w: nat): Pool
    requires w < |s.workers| && s.cursor < |input.documents|
  {
    Begin(input, s.(cursor := s.cursor + 1), w, s.cursor)
  }

  /** The fields of a pool after a cache hit on its next document. */
  ghost predicate AfterHit(input: Input, s: Pool, t: Pool, w: nat, entry: Entry) {
    && w < |s.workers| == |t.workers| && t.workers[w].Ready? && s.cursor < |input.documents|
    && t.cursor == s.cursor + 1 && t.done == s.done + {s.cursor} && t.hits == s.hits + {s.cursor}
    && t.vectors == s.vectors[input.documents[s.cursor].id := entry.vector]
    && t.dimension == Some(|entry.vector|) && (s.dimension.Some? ==> s.dimension == t.dimension)
    && t.revisions == s.revisions && t.cache == s.cache
    && entry.vector != [] && entry.finite
  }

  lemma {:induction false} BeginHits(input: Input, s: Pool, w: nat)
    requires w < |s.workers| && s.cursor < |input.documents| && !BeginAt(input, s, w).workers[w].Failing?
    requires input.cached && input.documents[s.cursor].key in s.cache
    ensures AfterHit(input, s, BeginAt(input, s, w), w, s.cache[input.documents[s.cursor].key])
  {}

  lemma {:induction false} StartHitIsDoneWell(input: Input, s: Pool, t: Pool, w: nat)
    requires Progress(input, s) && s.cursor < |input.documents| && HitFromStart(input, s.cursor)
    requires input.documents[s.cursor].key in s.cache
    requires AfterHit(input, s, t, w, s.cache[input.documents[s.cursor].key])
    ensures DoneWell(input, t, s.cursor)
  {
    StartEntryStays(input, s, s.cursor);
    hide Progress;
  }

  lemma {:induction false} NewHitIsDoneWell(input: Input, s: Pool, t: Pool, w: nat)
    requires Progress(input, s) && Structure(input, s) && s.cursor < |input.documents| && !HitFromStart(input, s.cursor)
    requires input.cached && input.documents[s.cursor].key in s.cache
    requires AfterHit(input, s, t, w, s.cache[input.documents[s.cursor].key])
    ensures DoneWell(input, t, s.cursor)
  {
    hide Progress, Structure, Expected;
    var j := HitIsBorrowed(input, s, s.cursor);
    assert Lends(input, t, j, s.cursor);
  }

  lemma {:induction false} HitIsDoneWell(input: Input, s: Pool, t: Pool, w: nat)
    requires Progress(input, s) && Structure(input, s) && s.cursor < |input.documents|
    requires input.cached && input.documents[s.cursor].key in s.cache
    requires AfterHit(input, s, t, w, s.cache[input.documents[s.cursor].key])
    ensures DoneWell(input, t, s.cursor)
  {
    hide Progress, Structure, AfterHit, DoneWell;
    if HitFromStart(input, s.cursor) { StartHitIsDoneWell(input, s, t, w); } else { NewHitIsDoneWell(input, s, t, w); }
  }

  lemma {:induction false} StartEntryStays(input: Input, s: Pool, i: nat)
    requires Progress(input, s) && i < |input.documents| && HitFromStart(input, i)
    ensures input.documents[i].key in s.cache && s.cache[input.documents[i].key] == input.cache[input.documents[i].key]
  {}

  /** What was asked for before a turn was asked for after it. */
  lemma {:induction false} AskedStays(input: Input, s: Pool, t: Pool, w: nat, i: nat)
    requires Effect(input, s, t, w, i) && i == Subject(s, w)
    ensures forall r :: Asked(input, s, r) ==> Asked(input, t, r)
  {
    hide Says;
    forall r | Asked(input, s, r) ensures Asked(input, t, r) {
      var j: nat, k: nat :| j < s.cursor && j !in s.hits && Says(input, j, k, r);
      assert j < t.cursor && j !in t.hits;
    }
  }

  lemma {:induction false} HitIsCleanTurn(input: Input, s: Pool, w: nat)
    requires w < |s.workers| && s.cursor < |input.documents| && Unfailing(BeginAt(input, s, w), w)
    requires Before(input, s, w)
    requires input.cached && input.documents[s.cursor].key in s.cache
    ensures CleanTurn(input, s, BeginAt(input, s, w), w, s.cursor)
  {
    hide CleanTurn;
    var i, t := s.cursor, BeginAt(input, s, w);
    BeginAtEffect(input, s, w);
    BeginHits(input, s, w);
    HitIsDoneWell(input, s, t, w);
    AskedStays(input, s, t, w, i);
    assert i !in s.done;
    CacheStaysHonest(input, s, t);
    RevisionsOf(input, s);
    HitAssembles(input, s, t, w, s.cache[input.documents[i].key]);
  }

  lemma {:induction false} HitAssembles(input: Input, s: Pool, t: Pool, w: nat, entry: Entry)
    requires AfterHit(input, s, t, w, entry) && Effect(input, s, t, w, s.cursor) && s.cursor !in s.done
    requires DoneWell(input, t, s.cursor) && CacheHonest(input, t)
    requires AtMostOne(t.revisions) && forall r :: r in t.revisions ==> Asked(input, t, r)
    ensures CleanTurn(input, s, t, w, s.cursor)
  {
    hide Effect, DoneWell, CacheHonest, AtMostOne, Asked, HeldWell;
  }

  /** The fields of a pool after its next document was not found in the cache. */
  ghost predicate AfterMiss(input: Input, s: Pool, t: Pool, w: nat) {
    var i := s.cursor;
    && w < |s.workers| == |t.workers| && i < |input.documents| && t.cursor == i + 1
    && t.vectors == s.vectors && t.dimension == s.dimension && t.revisions == s.revisions
    && t.cache == s.cache && t.hits == s.hits
    && if input.documents[i].chunks == [] then t.workers[w] == Ready && t.done == s.done + {i}
       else t.workers[w] == Waiting(i, []) && t.done == s.done
  }

  lemma {:induction false} BeginMisses(input: Input, s: Pool, w: nat)
    requires w < |s.workers| && s.cursor < |input.documents|
    requires !(input.cached && input.documents[s.cursor].key in s.cache)
    ensures AfterMiss(input, s, BeginAt(input, s, w), w)
  {}

  lemma {:induction false} MissAssembles(input: Input, s: Pool, t: Pool, w: nat)
    requires AfterMiss(input, s, t, w) && Effect(input, s, t, w, s.cursor) && s.cursor !in s.done && s.hits <= s.done
    requires !HitFromStart(input, s.cursor) && input.documents[s.cursor].id !in s.vectors
    requires CacheHonest(input, t) && AtMostOne(t.revisions) && forall r :: r in t.revisions ==> Asked(input, t, r)
    ensures CleanTurn(input, s, t, w, s.cursor)
  {
    hide Effect, CacheHonest, AtMostOne, Asked, ReplyOk, MeanOf;
    var i := s.cursor;
    assert input.documents[i].chunks == [] ==> DoneWell(input, t, i);
    assert input.documents[i].chunks != [] ==> HeldWell(input, t, i, []);
    hide DoneWell, HeldWell, HitFromStart;
  }

  lemma {:induction false} MissIsCleanTurn(input: Input, s: Pool, w: nat)
    requires Before(input, s, w) && !(input.cached && input.documents[s.cursor].key in s.cache)
    ensures CleanTurn(input, s, BeginAt(input, s, w), w, s.cursor)
  {
    hide CleanTurn, BeginAt, Progress, DistinctIds;
    var i, t := s.cursor, BeginAt(input, s, w);
    BeginAtEffect(input, s, w);
    BeginMisses(input, s, w);
    AskedStays(input, s, t, w, i);
    ProgressCache(input, s);
    assert i !in s.done;
    CacheStaysHonest(input, s, t);
    NotHitFromStart(input, s, i);
    NotRecordedYet(input, s, i);
    RevisionsOf(input, s);
    MissAssembles(input, s, t, w);
  }

  lemma {:induction false} BeginAtEffect(input: Input, s: Pool, w: nat)
    requires w < |s.workers| && s.workers[w].Ready? && s.cursor < |input.documents| && s.failure.None?
    ensures Effect(input, s, BeginAt(input, s, w), w, s.cursor)
  {
    BeginEffect(input, s, w);
  }

  lemma {:induction false} ProgressCache(input: Input, s: Pool)
    requires Progress(input, s)
    ensures CacheHonest(input, s)
  {}

  lemma {:induction false} RevisionsOf(input: Input, s: Pool)
    requires Progress(input, s)
    ensures AtMostOne(s.revisions) && forall r :: r in s.revisions ==> Asked(input, s, r)
  {}

  lemma {:induction false} BeginIsCleanTurn(input: Input, s: Pool, w: nat)
    requires w < |s.workers| && s.cursor < |input.documents| && Unfailing(BeginAt(input, s, w), w)
    requires Before(input, s, w)
    ensures CleanTurn(input, s, BeginAt(input, s, w), w, s.cursor)
  {
    hide CleanTurn, BeginAt, Structure, Progress, DistinctIds;
    if input.cached && input.documents[s.cursor].key in s.cache {
      HitIsCleanTurn(input, s, w);
    } else {
      MissIsCleanTurn(input, s, w);
    }
  }

  lemma {:induction false} NotHitFromStart(input: Input, s: Pool, i: nat)
    requires Progress(input, s) && i < |input.documents| && !(input.cached && input.documents[i].key in s.cache)
    ensures !HitFromStart(input, i)
  {}

  lemma {:induction false} NotRecordedYet(input: Input, s: Pool, i: nat)
    requires Progress(input, s) && i < |input.documents| && i !in s.done && DistinctIds(input)
    ensures input.documents[i].id !in s.vectors
  {}

  // ---------- a provider answer ----------

  predicate Unfailing(s: Pool, w: nat) {
    w < |s.workers| && !s.workers[w].Failing?
  }

  /** Worker `w` holds document `i` with `got` of its chunks answered, and nothing has failed. */
  ghost predicate Holding(input: Input, s: Pool, w: nat, i: nat, got: seq<Vector>) {
    && w < |s.workers| && s.workers[w] == Waiting(i, got) && s.failure.None?
    && Structure(input, s) && DistinctIds(input) && Progress(input, s)
  }

  lemma {:induction false} HoldingFacts(input: Input, s: Pool, w: nat, i: nat, got: seq<Vector>)
    requires Holding(input, s, w, i, got)
    ensures i < |input.documents| && i < s.cursor && i !in s.done && i !in s.hits && |got| < |input.documents[i].chunks|
    ensures HeldWell(input, s, i, got) && input.documents[i].id !in s.vectors
    ensures AtMostOne(s.revisions) && forall r :: r in s.revisions ==> Asked(input, s, r)
    ensures CacheHonest(input, s)
  {
    hide HeldWell, CacheHonest, Asked, AtMostOne, Effect;
    NotRecordedYet(input, s, i);
  }

  /** The state between taking an answer and sending on: one more chunk well answered. */
  ghost predicate Taken(input: Input, s: Pool, n: Pool, i: nat, got: seq<Vector>) {
    && SameBut(s, n) && Grows(s, n)
    && i < |input.documents| && 0 < |got| <= |input.documents[i].chunks|
    && HeldWell(input, n, i, got)
    && AtMostOne(n.revisions) && (forall r :: r in n.revisions ==> Asked(input, n, r))
  }

  ghost predicate SameBut(s: Pool, n: Pool) {
    && s.workers == n.workers && s.cursor == n.cursor && s.done == n.done && s.vectors == n.vectors
    && s.hits == n.hits && s.calls == n.calls && s.failure == n.failure && s.cache == n.cache
  }

  lemma {:induction false} AskedSameBut(input: Input, s: Pool, n: Pool)
    requires s.cursor == n.cursor && s.hits == n.hits
    ensures forall r :: Asked(input, s, r) == Asked(input, n, r)
  {}

  lemma {:induction false} AnswerIsTaken(input: Input, s: Pool, i: nat, got: seq<Vector>, vector: Vector, revision: Option<string>)
    requires i < |input.documents| && i < s.cursor && i !in s.hits && |got| < |input.documents[i].chunks|
    requires ReplyTo(input, i, |got|) == Answer(vector, true, revision)
    requires Accept(vector, true, s.dimension).Accepted?
    requires revision.Some? ==> |Noted(s, vector, revision).revisions| <= 1
    requires HeldWell(input, s, i, got) && AtMostOne(s.revisions) && forall r :: r in s.revisions ==> Asked(input, s, r)
    ensures Taken(input, s, Noted(s, vector, revision), i, got + [vector])
  {
    var n := Noted(s, vector, revision);
    HeldStaysWell(input, s, n, i, got);
    assert ReplyOk(input, i, |got|, n.dimension, n.revisions);
    CardinalityOfOne(n.revisions);
    assert forall k :: 0 <= k < |got| ==> (got + [vector])[k] == got[k];
    AskedSameBut(input, s, n);
    if revision.Some? { assert Says(input, i, |got|, revision.value); }
  }

  lemma {:induction false} SentIsCleanTurn(input: Input, s: Pool, n: Pool, t: Pool, w: nat, i: nat, got: seq<Vector>)
    requires Taken(input, s, n, i, got) && Effect(input, s, t, w, i) && CacheHonest(input, t)
    requires t.workers[w] == Waiting(i, got) && i !in s.done
    requires t.dimension == n.dimension && t.revisions == n.revisions && t.done == s.done && t.vectors == s.vectors
    requires t.cursor == s.cursor && t.hits == s.hits
    ensures CleanTurn(input, s, t, w, i)
  {
    AskedSameBut(input, n, t);
    HeldStaysWell(input, n, t, i, got);
    hide Effect, CacheHonest, HeldWell, AtMostOne, Asked;
  }

  lemma {:induction false} FinishedIsDoneWell(input: Input, s: Pool, n: Pool, t: Pool, i: nat, got: seq<Vector>)
    requires Taken(input, s, n, i, got) && |got| == |input.documents[i].chunks|
    requires t.dimension == n.dimension && t.revisions == n.revisions
    requires t.vectors == s.vectors[input.documents[i].id := MeanOf(got)] && i !in t.hits
    ensures DoneWell(input, t, i) && got == Replies(input, i) && Expected(input, i) == Some(MeanOf(got))
  {
    hide MeanOf;
    assert got == Replies(input, i);
    forall k: nat | k < |input.documents[i].chunks| ensures ReplyOk(input, i, k, t.dimension, t.revisions) {
      assert ReplyOk(input, i, k, n.dimension, n.revisions);
    }
  }

  lemma {:induction false} PutStaysHonest(input: Input, s: Pool, t: Pool, i: nat)
    requires CacheHonest(input, s) && t.done == s.done + {i} && t.hits == s.hits && i !in s.hits && i < |input.documents|
    requires !HitFromStart(input, i) && input.documents[i].chunks != []
    requires t.cache == if input.cached then s.cache[input.documents[i].key := Entry(MeanOf(Replies(input, i)), true)] else s.cache
    ensures CacheHonest(input, t)
  {
    hide MeanOf;
    forall key | key in t.cache && key !in input.cache ensures input.cached && exists j :: Made(input, t, key, j) {
      if input.cached && key == input.documents[i].key {
        assert Made(input, t, key, i);
      } else {
        var j :| Made(input, s, key, j);
        assert Made(input, t, key, j);
      }
    }
  }

  lemma {:induction false} FinishedIsCleanTurn(input: Input, s: Pool, n: Pool, t: Pool, w: nat, i: nat, got: seq<Vector>)
    requires Taken(input, s, n, i, got) && Effect(input, s, t, w, i) && CacheHonest(input, t)
    requires t.workers[w].Ready? && i !in s.done && DoneWell(input, t, i)
    requires t.dimension == n.dimension && t.revisions == n.revisions && t.done == s.done + {i}
    requires t.vectors == s.vectors[input.documents[i].id := MeanOf(got)] && t.cursor == s.cursor && t.hits == s.hits
    ensures CleanTurn(input, s, t, w, i)
  {
    AskedSameBut(input, n, t);
    hide Effect, CacheHonest, HeldWell, AtMostOne, Asked, DoneWell, MeanOf;
  }

  lemma {:induction false} LengthsAgree(input: Input, s: Pool, n: Pool, i: nat, got: seq<Vector>)
    requires Taken(input, s, n, i, got)
    ensures forall k :: 0 <= k < |got| ==> |got[k]| == |got[0]| && n.dimension == Some(|got[k]|)
    ensures MeanOf(got) != []
  {
    forall k | 0 <= k < |got| ensures |got[k]| == |got[0]| && n.dimension == Some(|got[k]|) {
      assert ReplyOk(input, i, k, n.dimension, n.revisions);
      assert ReplyOk(input, i, 0, n.dimension, n.revisions);
    }
    assert got[0] != [] by { assert ReplyOk(input, i, 0, n.dimension, n.revisions); }
    MeanLength(got);
  }

  lemma {:induction false} ReceiveIsCleanTurn(input: Input, s: Pool, w: nat, i: nat, got: seq<Vector>)
    requires w < |s.workers| && i < |input.documents| && |got| < |input.documents[i].chunks|
    requires Unfailing(Receive(input, s, w, i, got), w)
    requires Holding(input, s, w, i, got)
    ensures CleanTurn(input, s, Receive(input, s, w, i, got), w, i)
  {
    hide CleanTurn, Holding, HeldWell, CacheHonest, Asked, AtMostOne, Effect, MeanOf, DoneWell, Expected;
    HoldingIsClean(input, s, w, i, got);
    HoldingFacts(input, s, w, i, got);
    ReceiveEffect(input, s, w, i, got);
    var t := Receive(input, s, w, i, got);
    var Answer(vector, finite, revision) := ReplyTo(input, i, |got|);
    AnswerIsTaken(input, s, i, got, vector, revision);
    var n, got' := Noted(s, vector, revision), got + [vector];
    assert t == NextChunk(input, n, w, i, got');
    LengthsAgree(input, s, n, i, got');
    if |got'| < |input.documents[i].chunks| {
      CacheStaysHonest(input, s, t);
      SentIsCleanTurn(input, s, n, t, w, i, got');
    } else {
      FinishedIsDoneWell(input, s, n, t, i, got');
      HeldMissed(input, n, i, got');
      PutStaysHonest(input, s, t, i);
      FinishedIsCleanTurn(input, s, n, t, w, i, got');
    }
  }

  lemma {:induction false} HeldMissed(input: Input, s: Pool, i: nat, got: seq<Vector>)
    requires i < |input.documents| && |got| <= |input.documents[i].chunks| && HeldWell(input, s, i, got)
    ensures !HitFromStart(input, i)
  {}

  // ---------- whole runs ----------

  lemma {:induction false} StopIsCleanTurn(input: Input, s: Pool, w: nat)
    requires w < |s.workers| && s.workers[w].Ready? && s.failure.None? && s.cursor >= |input.documents|
    requires Progress(input, s)
    ensures CleanTurn(input, s, TakeNext(input, s, w), w, s.cursor)
  {
    var t := TakeNext(input, s, w);
    RevisionsOf(input, s);
    CacheStaysHonest(input, s, t);
    AskedStays(input, s, t, w, s.cursor);
    hide Asked, AtMostOne, CacheHonest, DoneWell, HeldWell;
  }

  /** A turn that ends clean began clean, and settles one more piece of the result. */
  lemma {:induction false} TurnKeepsProgress(input: Input, s: Pool, w: nat)
    requires w < |s.workers| && Structure(input, s) && DistinctIds(input)
    requires Clean(Turn(input, s, w)) && (Clean(s) ==> Progress(input, s))
    ensures Clean(s) && Progress(input, Turn(input, s, w))
  {
    TurnEffect(input, s, w);
    CleanBefore(input, s, w);
    hide Begin, Receive, Progress, Structure, CleanTurn, DistinctIds, Effect;
    var i := Subject(s, w);
    match s.workers[w]
    case Stopped =>
    case Failing(error) =>
    case Ready =>
      if s.cursor >= |input.documents| { StopIsCleanTurn(input, s, w); }
      else { BeginIsCleanTurn(input, s, w); }
      CleanTurnKeepsProgress(input, s, Turn(input, s, w), w, i);
    case Waiting(j, got) =>
      ReceiveIsCleanTurn(input, s, w, j, got);
      CleanTurnKeepsProgress(input, s, Turn(input, s, w), w, i);
  }

  lemma {:induction false} FailureStays(input: Input, s: Pool, w: nat)
    requires w < |s.workers| && Claimable(input, s)
    ensures s.failure.Some? ==> Turn(input, s, w).failure == s.failure
    ensures Turn(input, s, w).failure == s.failure || (s.failure.None? && s.workers[w] == Failing(Turn(input, s, w).failure.value))
  {
    hide MeanOf, Accept;
  }

  lemma {:induction false} CleanBefore(input: Input, s: Pool, w: nat)
    requires w < |s.workers| && Structure(input, s) && Clean(Turn(input, s, w))
    ensures Clean(s)
  {
    FailureStays(input, s, w);
    TurnEffect(input, s, w);
    var t := Turn(input, s, w);
    assert s.workers[w].Failing? ==> t.failure.Some?;
    hide Turn, Structure;
    forall v | 0 <= v < |s.workers| ensures !s.workers[v].Failing? {
      if v != w { assert t.workers[v] == s.workers[v]; }
    }
  }

  lemma {:induction false} StartProgress(input: Input, width: int)
    ensures Progress(input, Start(input, width)) && Clean(Start(input, width))
  {}

  lemma {:induction false} ProgressAlways(input: Input, width: int, schedule: seq<nat>)
    requires DistinctIds(input) && Clean(Execute(input, width, schedule))
    ensures Progress(input, Execute(input, width, schedule))
  {
    if schedule == [] {
      StartProgress(input, width);
    } else {
      var before, w := schedule[..|schedule| - 1], schedule[|schedule| - 1];
      var s := Execute(input, width, before);
      hide Progress, Clean, DistinctIds, Turn, Start;
      StructureAlways(input, width, before);
      if w < |s.workers| {
        CleanBefore(input, s, w);
        ProgressAlways(input, width, before);
        TurnKeepsProgress(input, s, w);
      } else {
        ProgressAlways(input, width, before);
      }
    }
  }

  // ---------- success ----------

  lemma {:induction false} StoppedIsDone(input: Input, s: Pool)
    requires Structure(input, s) && AllStopped(s) && Progress(input, s)
    ensures forall i :: 0 <= i < |input.documents| ==> i in s.done && DoneWell(input, s, i)
    ensures s.cursor >= |input.documents|
  {
    assert s.workers[0].Stopped?;
    forall i | 0 <= i < |input.documents| ensures i in s.done && DoneWell(input, s, i) {
      assert i in s.done || Held(s, i);
    }
  }

  /** The end of a pass nothing went wrong in. */
  ghost predicate EndsWell(input: Input, s: Pool) {
    && Structure(input, s) && Progress(input, s) && s.failure.None? && s.cursor >= |input.documents|
    && forall i :: 0 <= i < |input.documents| ==> i in s.done && DoneWell(input, s, i)
  }

  lemma {:induction false} SuccessEndsWell(input: Input, width: int, schedule: seq<nat>)
    requires DistinctIds(input)
    requires AllStopped(Execute(input, width, schedule)) && Execute(input, width, schedule).failure.None?
    ensures EndsWell(input, Execute(input, width, schedule))
  {
    var s := Execute(input, width, schedule);
    StructureAlways(input, width, schedule);
    assert Clean(s);
    hide Execute, Progress, Structure, DistinctIds, DoneWell;
    ProgressAlways(input, width, schedule);
    StoppedIsDone(input, s);
  }

  lemma {:induction false} NothingNeeded(input: Input, i: nat, revisions: set<string>, d: nat)
    requires i < |input.documents| && DocumentOk(input, i, None, revisions)
    ensures DocumentOk(input, i, Some(d), revisions)
  {
    if !HitFromStart(input, i) {
      assert input.documents[i].chunks != [] ==> !ReplyOk(input, i, 0, None, revisions);
      assert input.documents[i].chunks == [];
    }
  }

  /** A successful pass vouches for every document it did not serve from a borrowed entry. */
  lemma {:induction false} SuccessMeansGood(input: Input, s: Pool, but: set<nat>)
    requires EndsWell(input, s)
    requires forall i :: 0 <= i < |input.documents| && i !in but ==> !Borrowed(input, s, i)
    ensures GoodBut(input, but)
    ensures forall r :: Seen(input, but, r) ==> r in s.revisions
  {
    var d := if s.dimension.Some? then s.dimension.value else 1;
    RevisionsOf(input, s);
    hide Progress, Structure;
    forall i: nat | i < |input.documents| && i !in but ensures DocumentOk(input, i, Some(d), s.revisions) {
      assert DoneWell(input, s, i);
      if s.dimension.None? { NothingNeeded(input, i, s.revisions, d); }
    }
    assert GoodFor(input, but, d, s.revisions);
    forall r | Seen(input, but, r) ensures r in s.revisions {
      var i: nat, k: nat :| i !in but && Says(input, i, k, r) && !HitFromStart(input, i);
      assert DoneWell(input, s, i);
      assert ReplyOk(input, i, k, s.dimension, s.revisions);
    }
  }

  /** Every revision a successful pass reports was given by a document it asked for. */
  lemma {:induction false} RevisionsWereAsked(input: Input, s: Pool, but: set<nat>)
    requires EndsWell(input, s)
    requires forall i :: 0 <= i < |input.documents| && i in but ==> Borrowed(input, s, i)
    ensures forall r :: r in s.revisions ==> Seen(input, but, r)
  {
    RevisionsOf(input, s);
    hide Progress, Structure;
    forall r | r in s.revisions ensures Seen(input, but, r) {
      var i: nat, k: nat :| i < s.cursor && i !in s.hits && Says(input, i, k, r);
      assert DoneWell(input, s, i);
      assert i !in but;
    }
  }

  // ---------- failure ----------

  /** What usable documents let into the shared cells. */
  ghost predicate Within(s: Pool, d: nat, revisions: set<string>) {
    (s.dimension.Some? ==> s.dimension.value == d) && s.revisions <= revisions
  }

  ghost predicate StaysGood(t: Pool, w: nat, d: nat, revisions: set<string>) {
    w < |t.workers| && !t.workers[w].Failing? && t.failure.None? && Within(t, d, revisions)
  }

  /** The document of this turn is none of these, or waits to be served from an entry made during the run. */
  ghost predicate Expects(input: Input, s: Pool, w: nat, but: set<nat>)
    requires w < |s.workers|
  {
    var i := Subject(s, w);
    s.workers[w].Stopped? || i >= |input.documents| || i !in but
    || (s.workers[w].Ready? && input.cached && input.documents[i].key in s.cache && !HitFromStart(input, i))
  }

  lemma {:induction false} GoodBeginAccepts(input: Input, s: Pool, w: nat, but: set<nat>, d: nat, revisions: set<string>)
    requires GoodFor(input, but, d, revisions) && Within(s, d, revisions) && Before(input, s, w)
    requires Expects(input, s, w, but)
    ensures StaysGood(BeginAt(input, s, w), w, d, revisions)
  {
    var i := s.cursor;
    assert i !in but ==> DocumentOk(input, i, Some(d), revisions);
    if input.cached && input.documents[i].key in s.cache {
      if HitFromStart(input, i) { StartEntryStays(input, s, i); } else { var j := HitIsBorrowed(input, s, i); }
    }
    hide GoodFor, Structure, Progress, DistinctIds, MeanOf, ReplyOk, Expected;
  }

  lemma {:induction false} GoodReplyIsAccepted(input: Input, s: Pool, i: nat, k: nat, but: set<nat>, d: nat, revisions: set<string>)
    requires GoodFor(input, but, d, revisions) && Within(s, d, revisions)
    requires i !in but && i < |input.documents| && k < |input.documents[i].chunks| && !HitFromStart(input, i)
    ensures var reply := ReplyTo(input, i, k);
            && reply.Answer? && reply.finite && Accept(reply.vector, true, s.dimension).Accepted?
            && Within(Noted(s, reply.vector, reply.revision), d, revisions)
            && |Noted(s, reply.vector, reply.revision).revisions| <= 1
  {
    assert DocumentOk(input, i, Some(d), revisions);
    assert ReplyOk(input, i, k, Some(d), revisions);
    var reply := ReplyTo(input, i, k);
    CardinalityOfOne(Noted(s, reply.vector, reply.revision).revisions);
  }

  lemma {:induction false} EqualLengthsStayGood(input: Input, n: Pool, w: nat, i: nat, got: seq<Vector>, d: nat, revisions: set<string>)
    requires w < |n.workers| && i < |input.documents| && 0 < |got| <= |input.documents[i].chunks|
    requires n.failure.None? && Within(n, d, revisions)
    requires forall k :: 0 <= k < |got| ==> |got[k]| == |got[0]|
    ensures StaysGood(NextChunk(input, n, w, i, got), w, d, revisions)
  {
    hide MeanOf;
  }

  lemma {:induction false} GoodReceiveAccepts(input: Input, s: Pool, w: nat, i: nat, got: seq<Vector>,
                                              but: set<nat>, d: nat, revisions: set<string>)
    requires GoodFor(input, but, d, revisions) && Within(s, d, revisions) && Holding(input, s, w, i, got)
    requires i !in but && i < |input.documents| && |got| < |input.documents[i].chunks|
    ensures StaysGood(Receive(input, s, w, i, got), w, d, revisions)
  {
    hide Holding, HeldWell, CacheHonest, Asked, MeanOf, GoodFor, Within, StaysGood, Accept, NextChunk;
    assert w < |s.workers| && s.failure.None? by { HoldingIsClean(input, s, w, i, got); }
    HoldingFacts(input, s, w, i, got);
    HeldMissed(input, s, i, got);
    GoodReplyIsAccepted(input, s, i, |got|, but, d, revisions);
    var Answer(vector, finite, revision) := ReplyTo(input, i, |got|);
    var n := Noted(s, vector, revision);
    AnswerIsTaken(input, s, i, got, vector, revision);
    LengthsAgree(input, s, n, i, got + [vector]);
    EqualLengthsStayGood(input, n, w, i, got + [vector], d, revisions);
  }

  lemma {:induction false} HoldingIsClean(input: Input, s: Pool, w: nat, i: nat, got: seq<Vector>)
    requires Holding(input, s, w, i, got)
    ensures w < |s.workers| && s.failure.None? && s.workers[w] == Waiting(i, got)
  {}

  lemma {:induction false} GoodTurnStaysClean(input: Input, s: Pool, w: nat, but: set<nat>, d: nat, revisions: set<string>)
    requires w < |s.workers| && Structure(input, s) && DistinctIds(input)
    requires Progress(input, s) && Clean(s) && GoodFor(input, but, d, revisions) && Within(s, d, revisions)
    requires Expects(input, s, w, but)
    ensures Clean(Turn(input, s, w)) && Within(Turn(input, s, w), d, revisions)
  {
    TurnEffect(input, s, w);
    assert s.workers[w].Waiting? ==> |s.workers[w].got| < |input.documents[s.workers[w].document].chunks|;
    hide Begin, Receive, Progress, Structure, DistinctIds, GoodFor;
    match s.workers[w]
    case Stopped =>
    case Failing(error) =>
    case Ready => if s.cursor < |input.documents| { GoodBeginAccepts(input, s, w, but, d, revisions); }
    case Waiting(i, got) => GoodReceiveAccepts(input, s, w, i, got, but, d, revisions);
  }

  lemma {:induction false} GoodRunStaysClean(input: Input, width: int, schedule: seq<nat>, d: nat, revisions: set<string>)
    requires DistinctIds(input) && GoodFor(input, {}, d, revisions)
    ensures Clean(Execute(input, width, schedule)) && Within(Execute(input, width, schedule), d, revisions)
  {
    hide Progress, DistinctIds, Turn, GoodFor;
    if schedule == [] {
    } else {
      var before, w := schedule[..|schedule| - 1], schedule[|schedule| - 1];
      var s := Execute(input, width, before);
      GoodRunStaysClean(input, width, before, d, revisions);
      StructureAlways(input, width, before);
      ProgressAlways(input, width, before);
      if w < |s.workers| { GoodTurnStaysClean(input, s, w, {}, d, revisions); }
    }
  }

  /** When every document is usable nothing ever fails, whatever the width, the schedule and the keys. */
  lemma {:induction false} GoodNeverFails(input: Input, width: int, schedule: seq<nat>)
    requires DistinctIds(input) && Good(input)
    ensures Clean(Execute(input, width, schedule))
  {
    var d: nat, revisions :| GoodFor(input, {}, d, revisions);
    GoodRunStaysClean(input, width, schedule, d, revisions);
  }

  /** A document nothing shadows is never served from a borrowed entry, so a success vouches for it. */
  lemma {:induction false} SuccessMeansLeadersGood(input: Input, width: int, schedule: seq<nat>)
    requires DistinctIds(input)
    requires AllStopped(Execute(input, width, schedule)) && Execute(input, width, schedule).failure.None?
    ensures GoodBut(input, Followers(input))
    ensures forall r :: Seen(input, Followers(input), r) ==> r in Execute(input, width, schedule).revisions
  {
    var s := Execute(input, width, schedule);
    hide Execute, Progress, Structure;
    SuccessEndsWell(input, width, schedule);
    forall i | 0 <= i < |input.documents| && i !in Followers(input) ensures !Borrowed(input, s, i) {
      assert DoneWell(input, s, i);
    }
    SuccessMeansGood(input, s, Followers(input));
  }
}
