/** What holds in every reachable state of the embedding pool, failed or not. */
module EmbeddingSafety {
  import opened Ordering
  import opened Text
  import opened EmbeddingPool
  import R = EmbeddingResult

  // ---------- how much is in flight ----------

  function InFlight(workers: seq<Worker>): nat {
    if workers == [] then 0
    else InFlight(workers[..|workers| - 1]) + (if workers[|workers| - 1].Waiting? then 1 else 0)
  }

  lemma {:induction false} InFlightAtMostAll(workers: seq<Worker>)
    ensures InFlight(workers) <= |workers|
  {
    if workers == [] {
    } else {
      InFlightAtMostAll(workers[..|workers| - 1]);
    }
  }

  /** Provider requests in flight never exceed the width, nor (beyond one) the number of documents. */
  lemma {:induction false} WidthIsRespected(input: Input, width: int, schedule: seq<nat>)
    ensures InFlight(Execute(input, width, schedule).workers) <= if width > 1 then width else 1
    ensures |input.documents| > 0 ==> InFlight(Execute(input, width, schedule).workers) <= |input.documents|
  {
    StructureAlways(input, width, schedule);
    InFlightAtMostAll(Execute(input, width, schedule).workers);
  }

  /** No document is in two hands, and none in hand is already finished. */
  lemma {:induction false} ClaimedByOne(input: Input, width: int, schedule: seq<nat>, v: nat, w: nat)
    requires var s := Execute(input, width, schedule);
             v < |s.workers| && w < |s.workers| && s.workers[v].Waiting? && s.workers[w].Waiting?
    ensures var s := Execute(input, width, schedule);
            && s.workers[v].document !in s.done
            && (s.workers[v].document == s.workers[w].document ==> v == w)
  {
    StructureAlways(input, width, schedule);
  }

  // ---------- what is sent ----------

  /** Calls of the document in hand stop at the chunk being awaited; nobody's call is repeated. */
  ghost predicate CallsInOrder(s: Pool) {
    && Distinct(s.calls)
    && (forall c :: c in s.calls ==> c.0 < s.cursor)
    && (forall w, c :: 0 <= w < |s.workers| && s.workers[w].Waiting? && c in s.calls && c.0 == s.workers[w].document ==>
          c.1 <= |s.workers[w].got|)
  }

  lemma {:induction false} AppendDistinct<T>(s: seq<T>, x: T)
    requires Distinct(s) && x !in s
    ensures Distinct(s + [x])
  {}

  /** How a turn extends the calls: not at all, or with the chunk its worker now waits for. */
  ghost predicate Sends(s: Pool, t: Pool, w: nat, i: nat)
    requires w < |s.workers| && w < |t.workers|
  {
    if t.workers[w].Waiting? && (s.workers[w].Ready? || s.workers[w].Waiting?)
    then && t.workers[w].document == i && t.calls == s.calls + [(i, |t.workers[w].got|)]
         && s.failure.None?
         && (s.workers[w].Waiting? ==> |t.workers[w].got| == |s.workers[w].got| + 1 && t.cursor == s.cursor)
         && (s.workers[w].Ready? ==> t.workers[w].got == [] && i == s.cursor && t.cursor == i + 1)
    else t.calls == s.calls && (t.workers[w].Waiting? ==> s.workers[w] == t.workers[w])
  }

  /** A turn taken from a provider answer: wait for the chunk after the ones in hand, or hold nothing. */
  ghost predicate Advances(s: Pool, t: Pool, w: nat, i: nat, count: nat)
    requires w < |s.workers|
  {
    && |t.workers| == |s.workers| && t.cursor == s.cursor && !t.workers[w].Stopped?
    && (if t.workers[w].Waiting?
        then t.workers[w].document == i && |t.workers[w].got| == count && t.calls == s.calls + [(i, count)] && s.failure.None?
        else t.calls == s.calls)
  }

  lemma {:induction false} NextChunkAdvances(input: Input, s: Pool, w: nat, i: nat, got: seq<Vector>)
    requires w < |s.workers| && i < |input.documents| && 0 < |got| <= |input.documents[i].chunks|
    ensures Advances(s, NextChunk(input, s, w, i, got), w, i, |got|)
  {
    hide MeanOf;
  }

  lemma {:induction false} ReceiveAdvances(input: Input, s: Pool, w: nat, i: nat, got: seq<Vector>)
    requires w < |s.workers| && i < |input.documents| && |got| < |input.documents[i].chunks|
    ensures Advances(s, Receive(input, s, w, i, got), w, i, |got| + 1)
  {
    hide NextChunk, Accept;
    if input.answer(input.documents[i].chunks[|got|]).Answer? {
      var Answer(vector, finite, revision) := input.answer(input.documents[i].chunks[|got|]);
      NextChunkAdvances(input, Noted(s, vector, revision), w, i, got + [vector]);
    }
  }

  lemma {:induction false} BeginSends(input: Input, s: Pool, w: nat)
    requires w < |s.workers| && s.cursor < |input.documents|
    ensures var t := R.BeginAt(input, s, w);
            && |t.workers| == |s.workers| && t.cursor == s.cursor + 1 && !t.workers[w].Stopped?
            && (if t.workers[w].Waiting? then t.workers[w] == Waiting(s.cursor, []) && t.calls == s.calls + [(s.cursor, 0)]
                else t.calls == s.calls)
  {
    hide Accept;
  }

  lemma {:induction false} TurnSends(input: Input, s: Pool, w: nat)
    requires w < |s.workers| && Claimable(input, s) && HeldWasTaken(s)
    ensures |Turn(input, s, w).workers| == |s.workers| && Sends(s, Turn(input, s, w), w, Subject(s, w))
  {
    hide Begin, Receive;
    match s.workers[w]
    case Ready => if s.failure.None? && s.cursor < |input.documents| { BeginSends(input, s, w); }
    case Waiting(i, got) => ReceiveAdvances(input, s, w, i, got);
    case Stopped =>
    case Failing(error) =>
  }

  lemma {:induction false} SendingKeepsOrder(input: Input, s: Pool, t: Pool, w: nat, i: nat)
    requires Structure(input, s) && CallsInOrder(s) && w < |s.workers| && i == Subject(s, w)
    requires Effect(input, s, t, w, i) && Sends(s, t, w, i)
    ensures CallsInOrder(t)
  {
    hide Claimable;
    if t.calls != s.calls {
      assert (i, |t.workers[w].got|) !in s.calls;
      AppendDistinct(s.calls, (i, |t.workers[w].got|));
    }
    forall v, c | 0 <= v < |t.workers| && t.workers[v].Waiting? && c in t.calls && c.0 == t.workers[v].document
      ensures c.1 <= |t.workers[v].got|
    {
      if v != w { assert t.workers[v] == s.workers[v]; }
    }
  }

  lemma {:induction false} CallsAlwaysInOrder(input: Input, width: int, schedule: seq<nat>)
    ensures CallsInOrder(Execute(input, width, schedule))
  {
    if schedule == [] {
    } else {
      var before, w := schedule[..|schedule| - 1], schedule[|schedule| - 1];
      var s := Execute(input, width, before);
      CallsAlwaysInOrder(input, width, before);
      StructureAlways(input, width, before);
      if w < |s.workers| {
        TurnSends(input, s, w);
        TurnEffect(input, s, w);
        hide Turn, Structure, CallsInOrder, Effect, Sends;
        SendingKeepsOrder(input, s, Turn(input, s, w), w, Subject(s, w));
      }
    }
  }

  /** Each chunk of each document is sent at most once in a whole run. */
  lemma {:induction false} SentAtMostOnce(input: Input, width: int, schedule: seq<nat>, m: nat, n: nat)
    requires m < n < |Execute(input, width, schedule).calls|
    ensures Execute(input, width, schedule).calls[m] != Execute(input, width, schedule).calls[n]
  {
    CallsAlwaysInOrder(input, width, schedule);
  }

  /** Once a failure is recorded nothing more is sent, and the recorded failure is the first. */
  lemma {:induction false} NothingSentAfterFailure(input: Input, width: int, schedule: seq<nat>, more: seq<nat>)
    requires Execute(input, width, schedule).failure.Some?
    ensures Execute(input, width, schedule + more).failure == Execute(input, width, schedule).failure
    ensures Execute(input, width, schedule + more).calls == Execute(input, width, schedule).calls
  {
    hide Turn, Claimable, HeldWasTaken, Start;
    if more == [] {
      assert schedule + more == schedule;
    } else {
      var rest, w := more[..|more| - 1], more[|more| - 1];
      NothingSentAfterFailure(input, width, schedule, rest);
      var all := schedule + more;
      assert all[..|all| - 1] == schedule + rest && all[|all| - 1] == w;
      var s := Execute(input, width, schedule + rest);
      if w < |s.workers| {
        R.FailureStays(input, s, w);
        TurnSends(input, s, w);
      }
    }
  }

  // ---------- documents as they come in ----------

  /** A document before the filter. */
  datatype Offered = Offered(document: Document, decoded: bool, secret: bool)

  function Decodable(offered: seq<Offered>): seq<Document> {
    if offered == [] then []
    else (if offered[0].decoded && !offered[0].secret then [offered[0].document] else []) + Decodable(offered[1..])
  }

  predicate IdAtMost(x: Document, y: Document) {
    AtMost(x.id, y.id)
  }

  /** The filter and the sort in front of the pool. */
  function Prepare(offered: seq<Offered>, input: Input): Input {
    input.(documents := Sort(Decodable(offered), IdAtMost))
  }

  lemma {:induction false} DecodableMembers(offered: seq<Offered>, document: Document)
    ensures document in Decodable(offered) <==>
            exists o :: o in offered && o.decoded && !o.secret && o.document == document
  {
    if offered == [] {
    } else {
      DecodableMembers(offered[1..], document);
      assert offered == [offered[0]] + offered[1..];
    }
  }

  /** The pool is given, by id, exactly the documents that were decoded and are no secret candidate. */
  lemma {:induction false} PoolIsGiven(offered: seq<Offered>, input: Input)
    ensures var documents := Prepare(offered, input).documents;
            && (forall d :: d in documents <==> exists o :: o in offered && o.decoded && !o.secret && o.document == d)
            && forall i, j :: 0 <= i < j < |documents| ==> AtMost(documents[i].id, documents[j].id)
  {
    hide Decodable, Sort, AtMost;
    var documents := Prepare(offered, input).documents;
    SortKeepsMembers(Decodable(offered), IdAtMost);
    forall d ensures d in documents <==> exists o :: o in offered && o.decoded && !o.secret && o.document == d {
      DecodableMembers(offered, d);
    }
    AtMostIsTotalPreorder();
    SortOrders(Decodable(offered), IdAtMost);
    forall i, j | 0 <= i < j < |documents| ensures AtMost(documents[i].id, documents[j].id) {
      assert IdAtMost(documents[i], documents[j]);
    }
  }

  /** Every text handed to the provider is a chunk of a decoded document that is no secret candidate. */
  lemma {:induction false} OnlyOpenTextIsSent(offered: seq<Offered>, input: Input, width: int, schedule: seq<nat>, m: nat)
    requires m < |Execute(Prepare(offered, input), width, schedule).calls|
    ensures var (i, k) := Execute(Prepare(offered, input), width, schedule).calls[m];
            exists o :: o in offered && o.decoded && !o.secret && i < |Prepare(offered, input).documents|
                        && o.document == Prepare(offered, input).documents[i] && k < |o.document.chunks|
  {
    var input' := Prepare(offered, input);
    StructureAlways(input', width, schedule);
    var c := Execute(input', width, schedule).calls[m];
    assert c in Execute(input', width, schedule).calls;
    SortKeepsMembers(Decodable(offered), IdAtMost);
    DecodableMembers(offered, input'.documents[c.0]);
  }

  // ---------- nothing half-embedded ----------

  /** A complete source for a vector filed under `key`: an entry from before the run, or a whole document's mean. */
  ghost predicate WholeSource(input: Input, key: string, vector: Vector) {
    || (input.cached && key in input.cache && input.cache[key].vector == vector)
    || exists j :: WholeDocument(input, j, key, vector)
  }

  ghost predicate WholeDocument(input: Input, j: nat, key: string, vector: Vector) {
    && j < |input.documents| && input.documents[j].key == key
    && Averages(R.Replies(input, j), vector)
    && forall k: nat :: k < |input.documents[j].chunks| ==>
         R.ReplyTo(input, j, k).Answer? && R.Replies(input, j)[k] == R.ReplyTo(input, j, k).vector
  }

  ghost predicate HeldPrefix(input: Input, i: nat, got: seq<Vector>) {
    && i < |input.documents| && |got| <= |input.documents[i].chunks|
    && forall k: nat :: k < |got| ==> R.ReplyTo(input, i, k).Answer? && got[k] == R.ReplyTo(input, i, k).vector
  }

  ghost predicate Whole(input: Input, s: Pool) {
    && (forall w :: 0 <= w < |s.workers| && s.workers[w].Waiting? ==>
          HeldPrefix(input, s.workers[w].document, s.workers[w].got))
    && (input.cached ==> forall key :: key in s.cache ==> WholeSource(input, key, s.cache[key].vector))
    && (forall id :: id in s.vectors ==> exists i :: WholeVector(input, i, id, s.vectors[id]))
  }

  ghost predicate WholeVector(input: Input, i: nat, id: string, vector: Vector) {
    i < |input.documents| && input.documents[i].id == id && WholeSource(input, input.documents[i].key, vector)
  }

  lemma {:induction false} WholeDocumentIsSource(input: Input, i: nat, got: seq<Vector>)
    requires HeldPrefix(input, i, got) && |got| == |input.documents[i].chunks| && got != [] && SameLength(got)
    ensures WholeSource(input, input.documents[i].key, MeanOf(got))
  {
    hide MeanOf, Averages;
    assert got == R.Replies(input, i);
    AveragesIffMean(got, MeanOf(got));
    assert WholeDocument(input, i, input.documents[i].key, MeanOf(got));
  }

  /** Recording, or filing, a complete vector for document `i` keeps everything whole. */
  lemma {:induction false} RecordKeepsWhole(input: Input, s: Pool, t: Pool, i: nat, vector: Vector)
    requires Whole(input, s) && i < |input.documents| && WholeSource(input, input.documents[i].key, vector)
    requires t.vectors == s.vectors || t.vectors == s.vectors[input.documents[i].id := vector]
    requires t.cache == s.cache || t.cache == s.cache[input.documents[i].key := Entry(vector, true)]
    requires forall w :: 0 <= w < |t.workers| && t.workers[w].Waiting? ==> w < |s.workers| && s.workers[w] == t.workers[w]
    ensures Whole(input, t)
  {
    hide WholeSource, HeldPrefix;
    forall id | id in t.vectors ensures exists j :: WholeVector(input, j, id, t.vectors[id]) {
      if id in s.vectors && t.vectors[id] == s.vectors[id] {
        var j :| WholeVector(input, j, id, s.vectors[id]);
      } else {
        assert WholeVector(input, i, id, t.vectors[id]);
      }
    }
  }

  /** As does a turn that only moves its worker to a place that holds answered chunks. */
  lemma {:induction false} MovingKeepsWhole(input: Input, s: Pool, t: Pool, w: nat)
    requires Whole(input, s) && w < |s.workers| == |t.workers| && t.workers == s.workers[w := t.workers[w]]
    requires t.vectors == s.vectors && t.cache == s.cache
    requires t.workers[w].Waiting? ==> HeldPrefix(input, t.workers[w].document, t.workers[w].got)
    ensures Whole(input, t)
  {
    hide WholeSource, HeldPrefix, WholeVector;
  }

  lemma {:induction false} CountingKeepsWhole(input: Input, s: Pool, t: Pool)
    requires Whole(input, s) && t.workers == s.workers && t.vectors == s.vectors && t.cache == s.cache
    ensures Whole(input, t)
  {
    hide WholeSource, HeldPrefix, WholeVector;
  }

  lemma {:induction false} BeginKeepsWhole(input: Input, s: Pool, w: nat)
    requires Whole(input, s) && w < |s.workers| && s.cursor < |input.documents|
    ensures Whole(input, R.BeginAt(input, s, w))
  {
    hide Whole, Accept;
    var t, i := R.BeginAt(input, s, w), s.cursor;
    if input.cached && input.documents[i].key in s.cache {
      assert WholeSource(input, input.documents[i].key, s.cache[input.documents[i].key].vector) by {
        FiledIsWhole(input, s, input.documents[i].key);
      }
      RecordKeepsWhole(input, s, t, i, s.cache[input.documents[i].key].vector);
    } else {
      MovingKeepsWhole(input, s, t, w);
    }
  }

  lemma {:induction false} FiledIsWhole(input: Input, s: Pool, key: string)
    requires Whole(input, s) && input.cached && key in s.cache
    ensures WholeSource(input, key, s.cache[key].vector)
  {}

  lemma {:induction false} FinishKeepsWhole(input: Input, s: Pool, w: nat, i: nat, got: seq<Vector>)
    requires Whole(input, s) && w < |s.workers|
    requires HeldPrefix(input, i, got) && |got| == |input.documents[i].chunks| && got != []
    ensures Whole(input, Finish(input, s, w, i, got))
  {
    hide Whole, WholeSource, MeanOf;
    if SameLength(got) {
      WholeDocumentIsSource(input, i, got);
      RecordKeepsWhole(input, s, Finish(input, s, w, i, got), i, MeanOf(got));
    } else {
      MovingKeepsWhole(input, s, Finish(input, s, w, i, got), w);
    }
  }

  lemma {:induction false} ReceiveKeepsWhole(input: Input, s: Pool, w: nat, i: nat, got: seq<Vector>)
    requires Whole(input, s) && w < |s.workers| && HeldPrefix(input, i, got) && |got| < |input.documents[i].chunks|
    ensures Whole(input, Receive(input, s, w, i, got))
  {
    hide Whole, Finish, Accept, MeanOf;
    var t := Receive(input, s, w, i, got);
    if R.ReplyTo(input, i, |got|).Answer? {
      var Answer(vector, finite, revision) := R.ReplyTo(input, i, |got|);
      var n := Noted(s, vector, revision);
      assert HeldPrefix(input, i, got + [vector]);
      if t == NextChunk(input, n, w, i, got + [vector]) && |got + [vector]| == |input.documents[i].chunks| {
        var counted := n.(artifactsSent := n.artifactsSent + 1);
        CountingKeepsWhole(input, s, counted);
        FinishKeepsWhole(input, counted, w, i, got + [vector]);
      } else {
        MovingKeepsWhole(input, s, t, w);
      }
    } else {
      MovingKeepsWhole(input, s, t, w);
    }
  }

  lemma {:induction false} TurnKeepsWhole(input: Input, s: Pool, w: nat)
    requires Whole(input, s) && w < |s.workers| && Claimable(input, s)
    ensures Whole(input, Turn(input, s, w))
  {
    assert s.workers[w].Waiting? ==> HeldPrefix(input, s.workers[w].document, s.workers[w].got);
    hide Begin, Receive, WholeSource, WholeVector, HeldPrefix;
    match s.workers[w]
    case Ready => if s.cursor < |input.documents| { BeginKeepsWhole(input, s, w); }
    case Waiting(i, got) => ReceiveKeepsWhole(input, s, w, i, got);
    case Stopped =>
    case Failing(error) =>
  }

  /**
   In every reachable state, whatever failed and whoever shares keys: a recorded vector is a cached
   one, or the mean over all chunks of a document filed under the same key, never over some of them.
   */
  lemma {:induction false} NothingHalfEmbedded(input: Input, width: int, schedule: seq<nat>)
    ensures Whole(input, Execute(input, width, schedule))
  {
    if schedule == [] {
    } else {
      var before, w := schedule[..|schedule| - 1], schedule[|schedule| - 1];
      NothingHalfEmbedded(input, width, before);
      if w < |Execute(input, width, before).workers| {
        TurnKeepsWhole(input, Execute(input, width, before), w);
        hide Turn, Whole;
      }
    }
  }

  // ---------- every run ends ----------

  function Left(input: Input, cursor: nat): nat
    decreases |input.documents| - cursor
  {
    if cursor >= |input.documents| then 0
    else |input.documents[cursor].chunks| + 3 + Left(input, cursor + 1)
  }

  function Potential(input: Input, worker: Worker): nat {
    match worker
    case Ready => 1
    case Failing(_) => 1
    case Stopped => 0
    case Waiting(i, got) =>
      if i < |input.documents| && |got| <= |input.documents[i].chunks|
      then |input.documents[i].chunks| - |got| + 2 else 0
  }

  function Potentials(input: Input, workers: seq<Worker>): nat {
    if workers == [] then 0
    else Potentials(input, workers[..|workers| - 1]) + Potential(input, workers[|workers| - 1])
  }

  function Budget(input: Input, s: Pool): nat {
    Left(input, s.cursor) + Potentials(input, s.workers)
  }

  lemma {:induction false} PotentialsUpdate(input: Input, workers: seq<Worker>, w: nat, worker: Worker)
    requires w < |workers|
    ensures Potentials(input, workers[w := worker]) + Potential(input, workers[w])
            == Potentials(input, workers) + Potential(input, worker)
  {
    var last := |workers| - 1;
    if w == last {
      assert workers[w := worker][..last] == workers[..last];
    } else {
      PotentialsUpdate(input, workers[..last], w, worker);
      assert workers[w := worker][..last] == workers[..last][w := worker];
    }
  }

  /** Every turn of a worker that has not stopped spends budget: no schedule keeps the pool busy for ever. */
  lemma {:induction false} EveryTurnSpends(input: Input, width: int, schedule: seq<nat>, w: nat)
    requires w < |Execute(input, width, schedule).workers| && !Execute(input, width, schedule).workers[w].Stopped?
    ensures Budget(input, Execute(input, width, schedule + [w])) < Budget(input, Execute(input, width, schedule))
  {
    var s := Execute(input, width, schedule);
    assert (schedule + [w])[..|schedule|] == schedule;
    StructureAlways(input, width, schedule);
    TurnSpends(input, s, w);
  }

  lemma {:induction false} TurnSpends(input: Input, s: Pool, w: nat)
    requires Structure(input, s) && w < |s.workers| && !s.workers[w].Stopped?
    ensures Budget(input, Turn(input, s, w)) < Budget(input, s)
  {
    var t := Turn(input, s, w);
    TurnEffect(input, s, w);
    PotentialsUpdate(input, s.workers, w, t.workers[w]);
    WorkerSpends(input, s, w);
    hide Turn;
  }

  lemma {:induction false} WorkerSpends(input: Input, s: Pool, w: nat)
    requires Structure(input, s) && w < |s.workers| && !s.workers[w].Stopped?
    ensures |Turn(input, s, w).workers| == |s.workers|
    ensures Left(input, Turn(input, s, w).cursor) + Potential(input, Turn(input, s, w).workers[w])
            < Left(input, s.cursor) + Potential(input, s.workers[w])
  {
    hide Begin, Receive;
    match s.workers[w]
    case Ready => if s.failure.None? && s.cursor < |input.documents| { BeginSends(input, s, w); }
    case Waiting(i, got) => ReceiveAdvances(input, s, w, i, got);
    case Failing(error) =>
  }

  /** Any run can be taken on until every worker has stopped. */
  lemma {:induction false} RunToTheEnd(input: Input, width: int, schedule: seq<nat>) returns (whole: seq<nat>)
    ensures schedule <= whole && AllStopped(Execute(input, width, whole))
    decreases Budget(input, Execute(input, width, schedule))
  {
    var s := Execute(input, width, schedule);
    hide Execute, Budget;
    if w: nat :| w < |s.workers| && !s.workers[w].Stopped? {
      EveryTurnSpends(input, width, schedule, w);
      whole := RunToTheEnd(input, width, schedule + [w]);
    } else {
      whole := schedule;
    }
  }
}
