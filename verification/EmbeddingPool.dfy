/**
 The embedding worker pool of src/corpus_embeddings.ts as a state machine. One `Turn` runs one
 worker from a yield point to its next `await`; a schedule is any sequence of turns.
 */
module EmbeddingPool {
  import opened Text

  type Vector = seq<real>

  datatype Error =
    | ProviderRefused(message: string)
    | EmptyVector
    | NonFiniteVector
    | DimensionMismatch
    | SeveralRevisions
    | MixedChunkDimensions

  /** What the provider says to one text; `finite` is false when a component is not a number. */
  datatype Reply =
    | Answer(vector: Vector, finite: bool, revision: Option<string>)
    | Refusal(message: string)

  datatype Entry = Entry(vector: Vector, finite: bool)

  datatype Document = Document(id: string, key: string, chunks: seq<string>)

  /** `documents` are the eligible ones in id order; a deterministic provider answers each text one way. */
  datatype Input = Input(
    documents: seq<Document>,
    cached: bool,
    cache: map<string, Entry>,
    answer: string -> Reply)

  datatype Worker =
    | Ready
    | Waiting(document: nat, got: seq<Vector>)
    | Failing(error: Error)
    | Stopped

  /** History only: `done` and `hits` are the documents finished and those served from the cache, `calls` the requests started. */
  datatype Pool = Pool(
    workers: seq<Worker>,
    cursor: nat,
    failure: Option<Error>,
    dimension: Option<nat>,
    revisions: set<string>,
    vectors: map<string, Vector>,
    cache: map<string, Entry>,
    chunksSent: nat,
    artifactsSent: nat,
    cacheHits: nat,
    done: set<nat>,
    hits: set<nat>,
    calls: seq<(nat, nat)>)

  // ---------- vectors ----------

  ghost predicate SameLength(vectors: seq<Vector>) {
    forall k :: 0 <= k < |vectors| ==> |vectors[k]| == |vectors[0]|
  }

  function Sum(vectors: seq<Vector>, i: nat): real {
    if vectors == [] then 0.0
    else Sum(vectors[..|vectors| - 1], i)
         + (if i < |vectors[|vectors| - 1]| then vectors[|vectors| - 1][i] else 0.0)
  }

  /** The component-wise mean of vectors of one length. */
  function MeanOf(vectors: seq<Vector>): Vector {
    if vectors == [] then []
    else seq(|vectors[0]|, i requires 0 <= i < |vectors[0]| => Sum(vectors, i) / |vectors| as real)
  }

  /** A mean said without a sum: of one vector itself, and with a further vector `n - 1` old shares and one new one. */
  ghost predicate Averages(vectors: seq<Vector>, mean: Vector) {
    && vectors != []
    && if |vectors| == 1 then mean == vectors[0]
       else exists before :: Averages(vectors[..|vectors| - 1], before) && Blends(before, vectors, mean)
  }

  ghost predicate Blends(before: Vector, vectors: seq<Vector>, mean: Vector)
    requires vectors != []
  {
    var n, x := |vectors| as real, vectors[|vectors| - 1];
    && |mean| == |before| == |x|
    && forall i :: 0 <= i < |mean| ==> n * mean[i] == (n - 1.0) * before[i] + x[i]
  }

  /** The mean of vectors of one length is what averages them, and nothing averages vectors of several lengths. */
  lemma {:induction false} AveragesIffMean(vectors: seq<Vector>, mean: Vector)
    requires vectors != []
    ensures Averages(vectors, mean) <==> SameLength(vectors) && mean == MeanOf(vectors)
    decreases |vectors|
  {
    hide MeanOf, Blends;
    var n := |vectors|;
    if n == 1 {
      OneAverages(vectors);
    } else {
      var init := vectors[..n - 1];
      AveragesIffMean(init, MeanOf(init));
      if Averages(vectors, mean) {
        var before :| Averages(init, before) && Blends(before, vectors, mean);
        AveragesIffMean(init, before);
        OneMoreFits(vectors, mean);
        OneMoreBlends(vectors, mean);
      }
      if SameLength(vectors) && mean == MeanOf(vectors) {
        assert SameLength(init);
        OneMoreBlends(vectors, mean);
      }
    }
  }

  lemma {:induction false} OneAverages(vectors: seq<Vector>)
    requires |vectors| == 1
    ensures MeanOf(vectors) == vectors[0]
  {
    forall i | 0 <= i < |vectors[0]| ensures MeanOf(vectors)[i] == vectors[0][i] {
      assert Sum(vectors, i) == Sum(vectors[..0], i) + vectors[0][i];
    }
  }

  lemma {:induction false} OneMoreFits(vectors: seq<Vector>, mean: Vector)
    requires |vectors| > 1 && SameLength(vectors[..|vectors| - 1])
    requires Blends(MeanOf(vectors[..|vectors| - 1]), vectors, mean)
    ensures SameLength(vectors)
  {
    var n, init := |vectors|, vectors[..|vectors| - 1];
    assert |vectors[0]| == |init[0]| == |vectors[n - 1]|;
    forall k | 0 <= k < n ensures |vectors[k]| == |vectors[0]| {
      if k < n - 1 { assert init[k] == vectors[k]; }
    }
  }

  lemma {:induction false} QuotientBlends(a: real, x: real, n: real, q: real)
    requires n > 1.0
    ensures n * q == (n - 1.0) * (a / (n - 1.0)) + x <==> q == (a + x) / n
  {
    assert (n - 1.0) * (a / (n - 1.0)) == a;
    assert n * ((a + x) / n) == a + x;
    if n * q == a + x { assert q == (n * q) / n; }
  }

  lemma {:induction false} BlendsAt(vectors: seq<Vector>, i: nat, q: real)
    requires |vectors| > 1 && i < |vectors[0]| == |vectors[|vectors| - 1]|
    ensures |MeanOf(vectors)| == |MeanOf(vectors[..|vectors| - 1])| == |vectors[0]|
    ensures |vectors| as real * q == (|vectors| as real - 1.0) * MeanOf(vectors[..|vectors| - 1])[i] + vectors[|vectors| - 1][i]
            <==> q == MeanOf(vectors)[i]
  {
    var n, init := |vectors|, vectors[..|vectors| - 1];
    assert init[0] == vectors[0];
    assert MeanOf(init)[i] == Sum(init, i) / (n - 1) as real && MeanOf(vectors)[i] == Sum(vectors, i) / n as real;
    assert (n - 1) as real == n as real - 1.0;
    assert Sum(vectors, i) == Sum(init, i) + vectors[n - 1][i];
    hide MeanOf, Sum;
    QuotientBlends(Sum(init, i), vectors[n - 1][i], n as real, q);
  }

  lemma {:induction false} OneMoreBlends(vectors: seq<Vector>, mean: Vector)
    requires |vectors| > 1 && SameLength(vectors)
    ensures Blends(MeanOf(vectors[..|vectors| - 1]), vectors, mean) <==> mean == MeanOf(vectors)
  {
    var init := vectors[..|vectors| - 1];
    assert |vectors[|vectors| - 1]| == |vectors[0]| && init[0] == vectors[0];
    assert |MeanOf(vectors)| == |MeanOf(init)| == |vectors[0]|;
    hide MeanOf, Sum;
    forall i: nat | i < |vectors[0]| && |mean| == |vectors[0]|
      ensures |vectors| as real * mean[i] == (|vectors| as real - 1.0) * MeanOf(init)[i] + vectors[|vectors| - 1][i]
              <==> mean[i] == MeanOf(vectors)[i]
    {
      BlendsAt(vectors, i, mean[i]);
    }
  }

  /** `meanVector`: refuses mixed lengths instead of averaging what is left. */
  method MeanVector(vectors: seq<Vector>) returns (mean: Option<Vector>)
    ensures mean.Some? <==> SameLength(vectors)
    ensures mean.Some? ==> mean.value == MeanOf(vectors)
    ensures mean.Some? && vectors != [] ==> Averages(vectors, mean.value)
  {
    if vectors == [] { return Some([]); }
    var dimension := |vectors[0]|;
    var out := new real[dimension](_ => 0.0);
    var n: nat := 0;
    while n < |vectors|
      invariant n <= |vectors|
      invariant forall k :: 0 <= k < n ==> |vectors[k]| == dimension
      invariant forall i :: 0 <= i < dimension ==> out[i] == Sum(vectors[..n], i)
    {
      if |vectors[n]| != dimension { return None; }
      assert vectors[..n + 1][..n] == vectors[..n];
      var i := 0;
      while i < dimension
        invariant 0 <= i <= dimension
        invariant forall k :: 0 <= k < i ==> out[k] == Sum(vectors[..n + 1], k)
        invariant forall k :: i <= k < dimension ==> out[k] == Sum(vectors[..n], k)
      {
        out[i] := out[i] + vectors[n][i];
        i := i + 1;
      }
      n := n + 1;
    }
    assert vectors[..n] == vectors;
    mean := Some(seq(dimension, i requires 0 <= i < dimension reads out => out[i] / |vectors| as real));
    AveragesIffMean(vectors, mean.value);
  }

  /** `acceptVector`: the run's dimension after taking this vector, or why it cannot be taken. */
  datatype Acceptance = Accepted(dimension: nat) | Rejected(error: Error)

  function Accept(vector: Vector, finite: bool, dimension: Option<nat>): Acceptance {
    if vector == [] then Rejected(EmptyVector)
    else if !finite then Rejected(NonFiniteVector)
    else if dimension.Some? && dimension.value != |vector| then Rejected(DimensionMismatch)
    else Accepted(|vector|)
  }

  // ---------- one turn ----------

  function Park(s: Pool, w: nat, worker: Worker): Pool
    requires w < |s.workers|
  {
    s.(workers := s.workers[w := worker])
  }

  /** A worker at the top of its loop. */
  function TakeNext(input: Input, s: Pool, w: nat): Pool
    requires w < |s.workers|
  {
    if s.failure.Some? then Park(s, w, Stopped)
    else if s.cursor >= |input.documents| then Park(s, w, Stopped).(cursor := s.cursor + 1)
    else Begin(input, s.(cursor := s.cursor + 1), w, s.cursor)
  }

  /** `embedOne` up to its first `await`. */
  function Begin(input: Input, s: Pool, w: nat, i: nat): Pool
    requires w < |s.workers| && i < |input.documents|
  {
    var document := input.documents[i];
    if input.cached && document.key in s.cache then
      var entry := s.cache[document.key];
      match Accept(entry.vector, entry.finite, s.dimension)
      case Rejected(error) => Park(s, w, Failing(error))
      case Accepted(d) =>
        Park(s, w, Ready).(dimension := Some(d), vectors := s.vectors[document.id := entry.vector],
                           cacheHits := s.cacheHits + 1, done := s.done + {i}, hits := s.hits + {i})
    else if document.chunks == [] then
      Park(s, w, Ready).(done := s.done + {i})
    else
      Park(s, w, Waiting(i, [])).(calls := s.calls + [(i, 0)])
  }

  /** `embedOne` from a provider answer to its next `await`. */
  function Receive(input: Input, s: Pool, w: nat, i: nat, got: seq<Vector>): Pool
    requires w < |s.workers| && i < |input.documents| && |got| < |input.documents[i].chunks|
  {
    match input.answer(input.documents[i].chunks[|got|])
    case Refusal(message) => Park(s, w, Failing(ProviderRefused(message)))
    case Answer(vector, finite, revision) =>
      var counted := s.(chunksSent := s.chunksSent + 1);
      match Accept(vector, finite, s.dimension)
      case Rejected(error) => Park(counted, w, Failing(error))
      case Accepted(_) =>
        var noted := Noted(s, vector, revision);
        if revision.Some? && |noted.revisions| > 1 then Park(noted, w, Failing(SeveralRevisions))
        else NextChunk(input, noted, w, i, got + [vector])
  }

  /** An accepted answer, counted: it fixes the run's dimension and its revision is remembered. */
  function Noted(s: Pool, vector: Vector, revision: Option<string>): Pool {
    s.(chunksSent := s.chunksSent + 1, dimension := Some(|vector|),
       revisions := if revision.Some? then s.revisions + {revision.value} else s.revisions)
  }

  function NextChunk(input: Input, s: Pool, w: nat, i: nat, got: seq<Vector>): Pool
    requires w < |s.workers| && i < |input.documents| && 0 < |got| <= |input.documents[i].chunks|
  {
    var document := input.documents[i];
    if |got| < |document.chunks| then
      if s.failure.Some? then Park(s, w, Ready)
      else Park(s, w, Waiting(i, got)).(calls := s.calls + [(i, |got|)])
    else Finish(input, s.(artifactsSent := s.artifactsSent + 1), w, i, got)
  }

  function Finish(input: Input, s: Pool, w: nat, i: nat, got: seq<Vector>): Pool
    requires w < |s.workers| && i < |input.documents|
  {
    var document := input.documents[i];
    if exists k :: 0 <= k < |got| && |got[k]| != |got[0]| then Park(s, w, Failing(MixedChunkDimensions))
    else
      var mean := MeanOf(got);
      var finished := Park(s, w, Ready).(done := s.done + {i});
      if mean == [] then finished
      else finished.(vectors := s.vectors[document.id := mean],
                     cache := if input.cached then s.cache[document.key := Entry(mean, true)] else s.cache)
  }

  predicate Claimable(input: Input, s: Pool) {
    forall w :: 0 <= w < |s.workers| && s.workers[w].Waiting? ==>
      s.workers[w].document < |input.documents|
      && |s.workers[w].got| < |input.documents[s.workers[w].document].chunks|
  }

  /** Run worker `w` from where it is parked to its next yield point. */
  function Turn(input: Input, s: Pool, w: nat): Pool
    requires w < |s.workers| && Claimable(input, s)
  {
    match s.workers[w]
    case Stopped => s
    case Ready => TakeNext(input, s, w)
    case Waiting(i, got) => Receive(input, s, w, i, got)
    case Failing(error) =>
      Park(s, w, Stopped).(failure := if s.failure.None? then Some(error) else s.failure)
  }

  function WorkerCount(input: Input, width: int): nat {
    var width := if width > 1 then width else 1;
    var most := if |input.documents| > 1 then |input.documents| else 1;
    if width < most then width else most
  }

  function Start(input: Input, width: int): Pool {
    Pool(seq(WorkerCount(input, width), _ => Ready), 0, None, None, {}, map[], input.cache, 0, 0, 0, {}, {}, [])
  }

  /** The document worker `w` is on during its turn: the one it holds, or the next in line. */
  function Subject(s: Pool, w: nat): nat
    requires w < |s.workers|
  {
    if s.workers[w].Waiting? then s.workers[w].document else s.cursor
  }

  /** What a turn of `w` on document `i` may touch. */
  ghost predicate Effect(input: Input, s: Pool, t: Pool, w: nat, i: nat) {
    && w < |s.workers| == |t.workers|
    && t.workers == s.workers[w := t.workers[w]]
    && s.cursor <= t.cursor
    && (t.workers[w].Waiting? ==>
          && t.workers[w].document == i < |input.documents| && i < t.cursor
          && |t.workers[w].got| < |input.documents[i].chunks| && t.done == s.done)
    && (t.done == s.done || (t.done == s.done + {i} && i < |input.documents| && i < t.cursor && t.workers[w].Ready?))
    && (t.hits == s.hits || (t.hits == s.hits + {i} && t.done == s.done + {i} && s.workers[w].Ready?))
    && (t.vectors == s.vectors
        || (i < |input.documents| && t.done == s.done + {i} && input.documents[i].id in t.vectors
            && t.vectors.Keys == s.vectors.Keys + {input.documents[i].id}))
    && (t.calls == s.calls
        || (i < |input.documents| && s.failure.None?
            && exists k: nat :: k < |input.documents[i].chunks| && t.calls == s.calls + [(i, k)]))
  }

  lemma {:induction false} BeginEffect(input: Input, s: Pool, w: nat)
    requires w < |s.workers| && s.workers[w].Ready? && s.cursor < |input.documents| && s.failure.None?
    ensures Effect(input, s, Begin(input, s.(cursor := s.cursor + 1), w, s.cursor), w, s.cursor)
  {}

  lemma {:induction false} NextChunkEffect(input: Input, s: Pool, w: nat, i: nat, got: seq<Vector>)
    requires w < |s.workers| && i < |input.documents| && i < s.cursor && 0 < |got| <= |input.documents[i].chunks|
    ensures Effect(input, s, NextChunk(input, s, w, i, got), w, i)
  {
    hide MeanOf;
  }

  lemma {:induction false} ReceiveEffect(input: Input, s: Pool, w: nat, i: nat, got: seq<Vector>)
    requires w < |s.workers| && i < |input.documents| && i < s.cursor && |got| < |input.documents[i].chunks|
    ensures Effect(input, s, Receive(input, s, w, i, got), w, i)
  {
    hide NextChunk, Accept;
    if input.answer(input.documents[i].chunks[|got|]).Answer? {
      var Answer(vector, finite, revision) := input.answer(input.documents[i].chunks[|got|]);
      NextChunkEffect(input, Noted(s, vector, revision), w, i, got + [vector]);
    }
  }

  lemma {:induction false} TurnEffect(input: Input, s: Pool, w: nat)
    requires w < |s.workers| && Claimable(input, s)
    requires s.workers[w].Waiting? ==> s.workers[w].document < s.cursor
    ensures Effect(input, s, Turn(input, s, w), w, Subject(s, w))
  {
    hide Begin, Receive;
    match s.workers[w]
    case Ready => if s.failure.None? && s.cursor < |input.documents| { BeginEffect(input, s, w); }
    case Waiting(i, got) => ReceiveEffect(input, s, w, i, got);
    case Stopped =>
    case Failing(error) =>
  }

  /** The pool after a schedule: who runs next, over and over. Every interleaving is some schedule. */
  function Execute(input: Input, width: int, schedule: seq<nat>): (s: Pool)
    ensures Claimable(input, s) && HeldWasTaken(s)
  {
    if schedule == [] then Start(input, width)
    else
      var s := Execute(input, width, schedule[..|schedule| - 1]);
      var w := schedule[|schedule| - 1];
      if w < |s.workers| then TurnStaysClaimable(input, s, w); Turn(input, s, w) else s
  }

  predicate HeldWasTaken(s: Pool) {
    forall w :: 0 <= w < |s.workers| && s.workers[w].Waiting? ==> s.workers[w].document < s.cursor
  }

  lemma {:induction false} TurnStaysClaimable(input: Input, s: Pool, w: nat)
    requires w < |s.workers| && Claimable(input, s) && HeldWasTaken(s)
    ensures Claimable(input, Turn(input, s, w)) && HeldWasTaken(Turn(input, s, w))
  {
    TurnEffect(input, s, w);
    hide Turn;
  }

  predicate AllStopped(s: Pool) {
    forall w :: 0 <= w < |s.workers| ==> s.workers[w].Stopped?
  }

  // ---------- what every turn keeps ----------

  /** Each document in flight is held by one worker; only taken documents are held or finished. */
  ghost predicate Structure(input: Input, s: Pool) {
    && |s.workers| > 0 && s.hits <= s.done
    && Claimable(input, s) && HeldWasTaken(s)
    && (forall w :: 0 <= w < |s.workers| && s.workers[w].Waiting? ==> s.workers[w].document !in s.done)
    && (forall v, w :: 0 <= v < w < |s.workers| && s.workers[v].Waiting? && s.workers[w].Waiting? ==>
          s.workers[v].document != s.workers[w].document)
    && (forall i :: i in s.done ==> i < s.cursor && i < |input.documents|)
    && (forall id :: id in s.vectors ==> exists i :: i in s.done && i < |input.documents| && input.documents[i].id == id)
    && (forall c :: c in s.calls ==> c.0 < |input.documents| && c.1 < |input.documents[c.0].chunks|)
  }

  lemma {:induction false} StructureKept(input: Input, s: Pool, w: nat)
    requires Structure(input, s) && w < |s.workers|
    ensures Structure(input, Turn(input, s, w))
  {
    TurnEffect(input, s, w);
    TurnStaysClaimable(input, s, w);
    hide Turn, Claimable;
    EffectKeepsStructure(input, s, Turn(input, s, w), w, Subject(s, w));
  }

  lemma {:induction false} EffectKeepsStructure(input: Input, s: Pool, t: Pool, w: nat, i: nat)
    requires Structure(input, s) && w < |s.workers| && i == Subject(s, w)
    requires Effect(input, s, t, w, i) && Claimable(input, t) && HeldWasTaken(t)
    ensures Structure(input, t)
  {
    hide Claimable;
    forall id | id in t.vectors
      ensures exists j :: j in t.done && j < |input.documents| && input.documents[j].id == id
    {
      if id in s.vectors {
        var j :| j in s.done && j < |input.documents| && input.documents[j].id == id;
        assert j in t.done;
      }
    }
  }

  lemma {:induction false} StructureAlways(input: Input, width: int, schedule: seq<nat>)
    ensures Structure(input, Execute(input, width, schedule))
    ensures |Execute(input, width, schedule).workers| == WorkerCount(input, width)
  {
    if schedule == [] {
    } else {
      var before, w := schedule[..|schedule| - 1], schedule[|schedule| - 1];
      StructureAlways(input, width, before);
      var s := Execute(input, width, before);
      if w < |s.workers| {
        TurnEffect(input, s, w);
        StructureKept(input, s, w);
      }
    }
  }
}
