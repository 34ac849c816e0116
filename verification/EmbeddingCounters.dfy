/** The sent and hit counters of the embedding pass: sums over the documents, given which were served from the cache. */
module EmbeddingCounters {
  import opened Text
  import opened EmbeddingPool
  import opened EmbeddingResult

  // ---------- what each document contributes ----------

  datatype Counter = Hits | Artifacts | Chunks

  function Share(input: Input, hits: set<nat>, counter: Counter, i: nat): nat {
    if i >= |input.documents| then 0
    else if i in hits then (if counter.Hits? then 1 else 0)
    else match counter
      case Hits => 0
      case Artifacts => if input.documents[i].chunks == [] then 0 else 1
      case Chunks => |input.documents[i].chunks|
  }

  /** The shares of the finished documents below `k`. */
  ghost function Earned(input: Input, hits: set<nat>, counter: Counter, done: set<nat>, k: nat): nat {
    if k == 0 then 0
    else Earned(input, hits, counter, done, k - 1) + (if k - 1 in done then Share(input, hits, counter, k - 1) else 0)
  }

  /** The shares of all documents below `k`. */
  function Total(input: Input, hits: set<nat>, counter: Counter, k: nat): nat {
    if k == 0 then 0 else Total(input, hits, counter, k - 1) + Share(input, hits, counter, k - 1)
  }

  lemma {:induction false} EarnedAdd(input: Input, hits: set<nat>, hits': set<nat>, counter: Counter, done: set<nat>, i: nat, k: nat)
    requires i !in done && (hits' == hits || hits' == hits + {i})
    ensures Earned(input, hits', counter, done + {i}, k)
            == Earned(input, hits, counter, done, k) + (if i < k then Share(input, hits', counter, i) else 0)
  {
    if k == 0 {
    } else {
      assert k - 1 != i ==> Share(input, hits', counter, k - 1) == Share(input, hits, counter, k - 1);
      hide Share;
      EarnedAdd(input, hits, hits', counter, done, i, k - 1);
    }
  }

  lemma {:induction false} EarnedAll(input: Input, hits: set<nat>, counter: Counter, done: set<nat>, k: nat)
    requires forall i :: 0 <= i < k ==> i in done
    ensures Earned(input, hits, counter, done, k) == Total(input, hits, counter, k)
  {
    if k == 0 {
    } else {
      EarnedAll(input, hits, counter, done, k - 1);
    }
  }

  /** Every document served from the cache counts one hit more. */
  lemma {:induction false} MoreHits(input: Input, fewer: set<nat>, more: set<nat>, k: nat)
    requires fewer <= more && k <= |input.documents|
    ensures Total(input, fewer, Hits, k) <= Total(input, more, Hits, k)
    ensures (exists i :: 0 <= i < k && i in more && i !in fewer) ==> Total(input, fewer, Hits, k) < Total(input, more, Hits, k)
  {
    if k == 0 {
    } else {
      MoreHits(input, fewer, more, k - 1);
    }
  }

  function Gathered(worker: Worker): nat {
    if worker.Waiting? then |worker.got| else 0
  }

  function AllGathered(workers: seq<Worker>): nat {
    if workers == [] then 0 else AllGathered(workers[..|workers| - 1]) + Gathered(workers[|workers| - 1])
  }

  lemma {:induction false} GatheredUpdate(workers: seq<Worker>, w: nat, worker: Worker)
    requires w < |workers|
    ensures AllGathered(workers[w := worker]) + Gathered(workers[w]) == AllGathered(workers) + Gathered(worker)
  {
    var last := |workers| - 1;
    if w == last {
      assert workers[w := worker][..last] == workers[..last];
    } else {
      GatheredUpdate(workers[..last], w, worker);
      assert workers[w := worker][..last] == workers[..last][w := worker];
    }
  }

  /** Every counter is what the finished documents earned, chunks counting those in hand as well. */
  ghost predicate Tallied(input: Input, s: Pool) {
    var n := |input.documents|;
    && s.cacheHits == Earned(input, s.hits, Hits, s.done, n)
    && s.artifactsSent == Earned(input, s.hits, Artifacts, s.done, n)
    && s.chunksSent == Earned(input, s.hits, Chunks, s.done, n) + AllGathered(s.workers)
  }

  // ---------- one turn ----------

  /** `t` counts what the turn of `w` on document `i` did: one more answer, a finished document, or nothing. */
  ghost predicate Counts(input: Input, s: Pool, t: Pool, w: nat, i: nat)
    requires w < |s.workers| && w < |t.workers|
  {
    if t.done == s.done then
      && t.hits == s.hits && t.cacheHits == s.cacheHits && t.artifactsSent == s.artifactsSent
      && t.chunksSent + Gathered(s.workers[w]) == s.chunksSent + Gathered(t.workers[w])
    else
      && t.done == s.done + {i} && i !in s.done && i < |input.documents| && Gathered(t.workers[w]) == 0
      && (t.hits == s.hits || t.hits == s.hits + {i})
      && t.cacheHits == s.cacheHits + Share(input, t.hits, Hits, i)
      && t.artifactsSent == s.artifactsSent + Share(input, t.hits, Artifacts, i)
      && t.chunksSent + Gathered(s.workers[w]) == s.chunksSent + Share(input, t.hits, Chunks, i)
  }

  ghost predicate Counted(input: Input, s: Pool, t: Pool, w: nat, i: nat) {
    w < |s.workers| == |t.workers| && Counts(input, s, t, w, i)
  }

  lemma {:induction false} CountsKeepTally(input: Input, s: Pool, t: Pool, w: nat, i: nat)
    requires Tallied(input, s) && Effect(input, s, t, w, i) && Counts(input, s, t, w, i)
    ensures Tallied(input, t)
  {
    hide Share, Earned, AllGathered, Gathered;
    GatheredUpdate(s.workers, w, t.workers[w]);
    if t.done != s.done {
      EarnedAdd(input, s.hits, t.hits, Hits, s.done, i, |input.documents|);
      EarnedAdd(input, s.hits, t.hits, Artifacts, s.done, i, |input.documents|);
      EarnedAdd(input, s.hits, t.hits, Chunks, s.done, i, |input.documents|);
    }
  }

  lemma {:induction false} BeginCounts(input: Input, s: Pool, w: nat)
    requires w < |s.workers| && s.workers[w].Ready? && s.cursor < |input.documents|
    requires Unfailing(BeginAt(input, s, w), w) && s.cursor !in s.done && s.hits <= s.done
    ensures Counted(input, s, BeginAt(input, s, w), w, s.cursor)
  {}

  lemma {:induction false} NextChunkCounts(input: Input, s: Pool, w: nat, i: nat, got: seq<Vector>)
    requires w < |s.workers| && i < |input.documents| && 0 < |got| <= |input.documents[i].chunks| && s.failure.None?
    requires !NextChunk(input, s, w, i, got).workers[w].Failing?
    ensures var t := NextChunk(input, s, w, i, got);
            && |t.workers| == |s.workers| && t.cacheHits == s.cacheHits && t.chunksSent == s.chunksSent
            && (if |got| < |input.documents[i].chunks|
                then t.done == s.done && t.hits == s.hits && t.artifactsSent == s.artifactsSent && Gathered(t.workers[w]) == |got|
                else t.done == s.done + {i} && t.hits == s.hits && t.artifactsSent == s.artifactsSent + 1 && Gathered(t.workers[w]) == 0)
  {
    hide MeanOf;
  }

  lemma {:induction false} ReceiveCounts(input: Input, s: Pool, w: nat, i: nat, got: seq<Vector>)
    requires w < |s.workers| && s.workers[w] == Waiting(i, got) && s.failure.None?
    requires i < |input.documents| && |got| < |input.documents[i].chunks| && i !in s.done && i !in s.hits
    requires Unfailing(Receive(input, s, w, i, got), w)
    ensures Counted(input, s, Receive(input, s, w, i, got), w, i)
  {
    var Answer(vector, finite, revision) := ReplyTo(input, i, |got|);
    hide NextChunk, Accept;
    NextChunkCounts(input, Noted(s, vector, revision), w, i, got + [vector]);
  }

  lemma {:induction false} TurnCounts(input: Input, s: Pool, w: nat)
    requires w < |s.workers| && Structure(input, s) && Clean(s) && Clean(Turn(input, s, w)) && Tallied(input, s)
    ensures Tallied(input, Turn(input, s, w))
  {
    TurnEffect(input, s, w);
    assert s.cursor !in s.done;
    assert s.workers[w].Waiting? ==> s.workers[w].document !in s.done && s.workers[w].document !in s.hits;
    hide Begin, Receive, Structure, Tallied, Effect, Share;
    match s.workers[w]
    case Stopped =>
    case Failing(error) =>
    case Ready =>
      if s.cursor < |input.documents| { BeginCounts(input, s, w); }
      CountsKeepTally(input, s, Turn(input, s, w), w, Subject(s, w));
    case Waiting(i, got) =>
      ReceiveCounts(input, s, w, i, got);
      CountsKeepTally(input, s, Turn(input, s, w), w, i);
  }

  lemma {:induction false} NothingEarned(input: Input, counter: Counter, k: nat)
    ensures Earned(input, {}, counter, {}, k) == 0
  {
    if k == 0 {
    } else {
      NothingEarned(input, counter, k - 1);
    }
  }

  lemma {:induction false} NothingGathered(n: nat)
    ensures AllGathered(seq(n, _ => Ready)) == 0
  {
    if n == 0 {
    } else {
      NothingGathered(n - 1);
      assert seq(n, _ => Ready)[..n - 1] == seq(n - 1, _ => Ready);
    }
  }

  lemma {:induction false} TalliedAlways(input: Input, width: int, schedule: seq<nat>)
    requires Clean(Execute(input, width, schedule))
    ensures Tallied(input, Execute(input, width, schedule))
  {
    if schedule == [] {
      NothingEarned(input, Hits, |input.documents|);
      NothingEarned(input, Artifacts, |input.documents|);
      NothingEarned(input, Chunks, |input.documents|);
      NothingGathered(WorkerCount(input, width));
    } else {
      var before, w := schedule[..|schedule| - 1], schedule[|schedule| - 1];
      var s := Execute(input, width, before);
      hide Clean, Turn, Tallied;
      StructureAlways(input, width, before);
      if w < |s.workers| {
        CleanBefore(input, s, w);
        TalliedAlways(input, width, before);
        TurnCounts(input, s, w);
      } else {
        TalliedAlways(input, width, before);
      }
    }
  }

  lemma {:induction false} StoppedGathersNothing(workers: seq<Worker>)
    requires forall w :: 0 <= w < |workers| ==> workers[w].Stopped?
    ensures AllGathered(workers) == 0
  {
    if workers == [] {
    } else {
      StoppedGathersNothing(workers[..|workers| - 1]);
    }
  }

  /** A successful pass counts one hit for each document served from the cache, and sends all of every other. */
  lemma {:induction false} CountersAddUp(input: Input, width: int, schedule: seq<nat>)
    requires DistinctIds(input)
    requires AllStopped(Execute(input, width, schedule)) && Execute(input, width, schedule).failure.None?
    ensures var s, n := Execute(input, width, schedule), |input.documents|;
            && s.cacheHits == Total(input, s.hits, Hits, n)
            && s.artifactsSent == Total(input, s.hits, Artifacts, n)
            && s.chunksSent == Total(input, s.hits, Chunks, n)
  {
    var s := Execute(input, width, schedule);
    assert Clean(s);
    hide Execute, Share, Progress, Structure, DistinctIds, Clean;
    TalliedAlways(input, width, schedule);
    SuccessEndsWell(input, width, schedule);
    StoppedGathersNothing(s.workers);
    EarnedAll(input, s.hits, Hits, s.done, |input.documents|);
    EarnedAll(input, s.hits, Artifacts, s.done, |input.documents|);
    EarnedAll(input, s.hits, Chunks, s.done, |input.documents|);
  }
}
