/** When a pass answers the same at every width and under every interleaving, and when it does not. */
module EmbeddingSchedule {
  import opened Text
  import opened EmbeddingPool
  import opened EmbeddingResult
  import opened EmbeddingCounters
  import opened EmbeddingSafety

  // ---------- what a finished pass answers ----------

  datatype Outcome = Failed | Succeeded(vectors: map<string, Vector>, revisions: set<string>)

  function OutcomeOf(s: Pool): Outcome {
    if s.failure.Some? then Failed else Succeeded(s.vectors, s.revisions)
  }

  datatype Report = NoReport | Report(outcome: Outcome, cacheHits: nat, artifactsSent: nat, chunksSent: nat)

  function ReportOf(s: Pool): Report {
    if s.failure.Some? then NoReport else Report(OutcomeOf(s), s.cacheHits, s.artifactsSent, s.chunksSent)
  }

  ghost predicate Ends(input: Input, width: int, schedule: seq<nat>) {
    AllStopped(Execute(input, width, schedule))
  }

  ghost predicate OutcomeIsScheduleFree(input: Input) {
    forall width, schedule, width', schedule' :: Ends(input, width, schedule) && Ends(input, width', schedule') ==>
      OutcomeOf(Execute(input, width, schedule)) == OutcomeOf(Execute(input, width', schedule'))
  }

  ghost predicate ReportIsScheduleFree(input: Input) {
    forall width, schedule, width', schedule' :: Ends(input, width, schedule) && Ends(input, width', schedule') ==>
      ReportOf(Execute(input, width, schedule)) == ReportOf(Execute(input, width', schedule'))
  }

  // ---------- one worker: the first document under a key serves all later ones ----------

  ghost predicate Sequential(input: Input, s: Pool) {
    |s.workers| == 1 && forall i: nat :: i < s.cursor && Shadowed(input, i) ==> i in s.hits
  }

  lemma {:induction false} ShadowedIsFiled(input: Input, s: Pool, i: nat)
    requires Progress(input, s) && |s.workers| == 1 && s.workers[0].Ready? && s.cursor == i && Shadowed(input, i)
    ensures i < |input.documents| && input.cached && input.documents[i].key in s.cache && !HitFromStart(input, i)
  {
    hide DoneWell, HeldWell, Asked, AtMostOne;
    var j: nat :| Shadows(input, j, i);
    assert j in s.done || Held(s, j);
    assert CacheHonest(input, s);
  }

  lemma {:induction false} SequentialExpects(input: Input, s: Pool)
    requires Structure(input, s) && Progress(input, s) && Sequential(input, s)
    ensures Expects(input, s, 0, Followers(input)) || s.workers[0].Failing?
  {
    hide Progress, Shadowed;
    match s.workers[0]
    case Stopped =>
    case Failing(error) =>
    case Ready => if Shadowed(input, s.cursor) { ShadowedIsFiled(input, s, s.cursor); }
    case Waiting(i, got) => assert i < s.cursor && i !in s.hits;
  }

  lemma {:induction false} SequentialBegin(input: Input, s: Pool)
    requires Progress(input, s) && Sequential(input, s) && s.workers[0].Ready?
    requires s.cursor < |input.documents| && Unfailing(BeginAt(input, s, 0), 0)
    ensures Sequential(input, BeginAt(input, s, 0))
  {
    hide Progress, Shadowed, BeginAt, HitFromStart;
    BeginMovesOn(input, s, 0);
    if Shadowed(input, s.cursor) {
      ShadowedIsFiled(input, s, s.cursor);
      BeginHits(input, s, 0);
    }
  }

  lemma {:induction false} SequentialTurn(input: Input, s: Pool)
    requires Structure(input, s) && Progress(input, s) && Sequential(input, s) && Clean(s) && Clean(Turn(input, s, 0))
    ensures Sequential(input, Turn(input, s, 0))
  {
    hide Progress, Shadowed, Begin, Receive;
    match s.workers[0]
    case Stopped =>
    case Failing(error) =>
    case Ready =>
      if s.cursor < |input.documents| {
        BeginMovesOn(input, s, 0);
        assert Unfailing(BeginAt(input, s, 0), 0);
        SequentialBegin(input, s);
      } else {
        OnlyDocumentsAreShadowed(input, s.cursor);
      }
    case Waiting(i, got) => ReceiveKeepsHits(input, s, 0, i, got);
  }

  ghost predicate HitsKept(s: Pool, t: Pool) {
    t.hits == s.hits && t.cursor == s.cursor && |t.workers| == |s.workers|
  }

  lemma {:induction false} NextChunkKeepsHits(input: Input, s: Pool, w: nat, i: nat, got: seq<Vector>)
    requires w < |s.workers| && i < |input.documents| && 0 < |got| <= |input.documents[i].chunks|
    ensures HitsKept(s, NextChunk(input, s, w, i, got))
  {
    hide MeanOf;
  }

  lemma {:induction false} ReceiveKeepsHits(input: Input, s: Pool, w: nat, i: nat, got: seq<Vector>)
    requires w < |s.workers| && i < |input.documents| && |got| < |input.documents[i].chunks|
    ensures HitsKept(s, Receive(input, s, w, i, got))
  {
    hide Accept, NextChunk;
    if input.answer(input.documents[i].chunks[|got|]).Answer? {
      var Answer(vector, finite, revision) := input.answer(input.documents[i].chunks[|got|]);
      NextChunkKeepsHits(input, Noted(s, vector, revision), w, i, got + [vector]);
    }
  }

  lemma {:induction false} OnlyDocumentsAreShadowed(input: Input, i: nat)
    ensures Shadowed(input, i) ==> i < |input.documents| && input.cached && !HitFromStart(input, i)
  {}

  lemma {:induction false} BeginMovesOn(input: Input, s: Pool, w: nat)
    requires w < |s.workers| && s.cursor < |input.documents|
    ensures var t := BeginAt(input, s, w); t.cursor == s.cursor + 1 && s.hits <= t.hits && |t.workers| == |s.workers|
  {
    hide Accept;
  }

  lemma {:induction false} SequentialStart(input: Input)
    ensures Sequential(input, Start(input, 1))
  {}

  lemma {:induction false} SequentialAlways(input: Input, schedule: seq<nat>)
    requires DistinctIds(input) && Clean(Execute(input, 1, schedule))
    ensures Sequential(input, Execute(input, 1, schedule))
  {
    hide Progress, Clean, DistinctIds, Turn, Sequential, Start, Claimable, HeldWasTaken;
    if schedule == [] {
      SequentialStart(input);
    } else {
      var before, w := schedule[..|schedule| - 1], schedule[|schedule| - 1];
      var s := Execute(input, 1, before);
      StructureAlways(input, 1, before);
      if w < |s.workers| {
        CleanBefore(input, s, w);
        ProgressAlways(input, 1, before);
        SequentialAlways(input, before);
        SequentialTurn(input, s);
      } else {
        SequentialAlways(input, before);
      }
    }
  }

  lemma {:induction false} LeadersRunStaysClean(input: Input, schedule: seq<nat>, d: nat, revisions: set<string>)
    requires DistinctIds(input) && GoodFor(input, Followers(input), d, revisions)
    ensures Clean(Execute(input, 1, schedule)) && Within(Execute(input, 1, schedule), d, revisions)
  {
    hide Progress, DistinctIds, Turn, GoodFor, Expects, Sequential, Followers;
    if schedule == [] {
    } else {
      var before, w := schedule[..|schedule| - 1], schedule[|schedule| - 1];
      var s := Execute(input, 1, before);
      LeadersRunStaysClean(input, before, d, revisions);
      StructureAlways(input, 1, before);
      ProgressAlways(input, 1, before);
      SequentialAlways(input, before);
      if w < |s.workers| {
        SequentialExpects(input, s);
        GoodTurnStaysClean(input, s, w, Followers(input), d, revisions);
      }
    }
  }

  /** One worker serves exactly the shadowed documents from borrowed entries, and asks for the others alone. */
  lemma {:induction false} OneAtATime(input: Input, schedule: seq<nat>)
    requires DistinctIds(input) && Ends(input, 1, schedule) && GoodBut(input, Followers(input))
    ensures var s := Execute(input, 1, schedule);
            EndsWell(input, s) && forall i: nat :: i < |input.documents| ==> Borrowed(input, s, i) == Shadowed(input, i)
  {
    var s := Execute(input, 1, schedule);
    var d: nat, revisions :| GoodFor(input, Followers(input), d, revisions);
    hide Execute, Progress, Structure, GoodFor, GoodBut, Followers;
    LeadersRunStaysClean(input, schedule, d, revisions);
    SuccessEndsWell(input, 1, schedule);
    SequentialAlways(input, schedule);
    forall i: nat | i < |input.documents| ensures Borrowed(input, s, i) == Shadowed(input, i) {
      assert DoneWell(input, s, i);
      OnlyDocumentsAreShadowed(input, i);
    }
  }

  // ---------- a worker each: nobody is served from an entry made during the run ----------

  function Each(n: nat): seq<nat> {
    if n == 0 then [] else Each(n - 1) + [n - 1]
  }

  ghost predicate OnlyOldHits(input: Input, s: Pool) {
    forall i: nat :: i in s.hits && i < |input.documents| ==> HitFromStart(input, i)
  }

  ghost predicate FirstRound(input: Input, s: Pool, k: nat) {
    && s.cursor == k && s.failure.None? && s.cache == input.cache && OnlyOldHits(input, s)
    && forall w :: k <= w < |s.workers| ==> s.workers[w].Ready?
  }

  lemma {:induction false} FirstRoundTurn(input: Input, s: Pool, k: nat)
    requires FirstRound(input, s, k) && k < |s.workers| && k < |input.documents| && Claimable(input, s)
    ensures FirstRound(input, Turn(input, s, k), k + 1)
  {
    hide Accept;
  }

  lemma {:induction false} FirstRoundOf(input: Input, width: int, k: nat)
    requires k <= |input.documents| <= width
    ensures FirstRound(input, Execute(input, width, Each(k)), k)
  {
    hide Turn, FirstRound, Execute, Claimable, HeldWasTaken;
    if k == 0 {
      FirstRoundStarts(input, width);
    } else {
      FirstRoundOf(input, width, k - 1);
      EnoughWorkers(input, width, Each(k - 1));
      OneTurn(input, width, Each(k - 1), k - 1);
      FirstRoundTurn(input, Execute(input, width, Each(k - 1)), k - 1);
    }
  }

  lemma {:induction false} FirstRoundStarts(input: Input, width: int)
    ensures FirstRound(input, Execute(input, width, []), 0)
  {}

  lemma {:induction false} OneTurn(input: Input, width: int, schedule: seq<nat>, w: nat)
    requires w < |Execute(input, width, schedule).workers|
    ensures Execute(input, width, schedule + [w]) == Turn(input, Execute(input, width, schedule), w)
  {
    hide Turn;
    assert (schedule + [w])[..|schedule|] == schedule;
  }

  lemma {:induction false} EnoughWorkers(input: Input, width: int, schedule: seq<nat>)
    requires |input.documents| <= width
    ensures |Execute(input, width, schedule).workers| >= |input.documents|
  {
    hide Structure, Execute;
    StructureAlways(input, width, schedule);
  }

  lemma {:induction false} LaterTurn(input: Input, s: Pool, w: nat)
    requires w < |s.workers| && Claimable(input, s) && HeldWasTaken(s)
    requires s.cursor >= |input.documents| && OnlyOldHits(input, s)
    ensures Turn(input, s, w).cursor >= |input.documents| && OnlyOldHits(input, Turn(input, s, w))
  {
    TurnEffect(input, s, w);
    hide Receive;
  }

  lemma {:induction false} LaterRounds(input: Input, width: int, more: seq<nat>)
    requires |input.documents| <= width
    ensures var s := Execute(input, width, Each(|input.documents|) + more);
            s.cursor >= |input.documents| && OnlyOldHits(input, s)
  {
    hide Turn, OnlyOldHits, Each, Start, Claimable, HeldWasTaken;
    var first := Each(|input.documents|);
    if more == [] {
      FirstRoundOf(input, width, |input.documents|);
      assert first + more == first;
    } else {
      var rest, w := more[..|more| - 1], more[|more| - 1];
      LaterRounds(input, width, rest);
      assert (first + more)[..|first + more| - 1] == first + rest;
      var s := Execute(input, width, first + rest);
      if w < |s.workers| { LaterTurn(input, s, w); }
    }
  }

  // ---------- the vectors of a good pass ----------

  lemma {:induction false} RecordedOnce(vectors: map<string, Vector>, id: string, x: Option<Vector>, y: Option<Vector>)
    requires Recorded(vectors, id, x) && Recorded(vectors, id, y)
    ensures x == y
  {}

  /** Every shadowed document would get the vector it may be served. */
  ghost predicate LendersAgree(input: Input) {
    forall j: nat, i: nat :: Shadows(input, j, i) ==> Expected(input, j) == Expected(input, i)
  }

  /** Whatever revision a shadowed document would be answered by, some other document is answered by too. */
  ghost predicate LeadersSayAll(input: Input) {
    forall r :: Seen(input, {}, r) ==> Seen(input, Followers(input), r)
  }

  /** The vectors of a pass that goes well, read off the input alone. */
  ghost predicate ExpectedVectors(input: Input, vectors: map<string, Vector>) {
    && (forall i: nat :: i < |input.documents| ==> Recorded(vectors, input.documents[i].id, Expected(input, i)))
    && (forall id :: id in vectors ==> exists i: nat :: i < |input.documents| && input.documents[i].id == id)
  }

  lemma {:induction false} VectorsAsExpected(input: Input, s: Pool)
    requires EndsWell(input, s) && LendersAgree(input)
    ensures ExpectedVectors(input, s.vectors)
  {
    forall i: nat | i < |input.documents| ensures Recorded(s.vectors, input.documents[i].id, Expected(input, i)) {
      assert DoneWell(input, s, i);
      hide Progress, Structure, Expected, Recorded;
    }
    hide DoneWell, Expected;
  }

  lemma {:induction false} SameExpectedVectors(input: Input, vectors: map<string, Vector>, others: map<string, Vector>)
    requires ExpectedVectors(input, vectors) && ExpectedVectors(input, others)
    ensures vectors == others
  {
    hide Expected;
    forall id | id in vectors || id in others
      ensures id in vectors && id in others && vectors[id] == others[id]
    {
      var i: nat :| i < |input.documents| && input.documents[i].id == id;
    }
  }

  // ---------- the two theorems ----------

  lemma {:induction false} FailsWithoutLeaders(input: Input, width: int, schedule: seq<nat>)
    requires DistinctIds(input) && Ends(input, width, schedule) && !GoodBut(input, Followers(input))
    ensures Execute(input, width, schedule).failure.Some?
  {
    hide Execute, AllStopped, DistinctIds, GoodBut, Followers;
    if Execute(input, width, schedule).failure.None? {
      assert AllStopped(Execute(input, width, schedule)) by { EndsIs(input, width, schedule); }
      SuccessMeansLeadersGood(input, width, schedule);
    }
  }

  lemma {:induction false} EndsIs(input: Input, width: int, schedule: seq<nat>)
    ensures Ends(input, width, schedule) == AllStopped(Execute(input, width, schedule))
  {}

  lemma {:induction false} GoodSucceeds(input: Input, width: int, schedule: seq<nat>)
    requires DistinctIds(input) && Ends(input, width, schedule) && Good(input)
    ensures EndsWell(input, Execute(input, width, schedule))
  {
    hide Execute, AllStopped, DistinctIds, Good, EndsWell;
    GoodNeverFails(input, width, schedule);
    EndsIs(input, width, schedule);
    SuccessEndsWell(input, width, schedule);
  }

  /** What a good pass reports, when it does not matter who is served from a borrowed entry. */
  lemma {:induction false} GoodOutcome(input: Input, width: int, schedule: seq<nat>)
    requires DistinctIds(input) && Ends(input, width, schedule)
    requires Good(input) && LendersAgree(input) && LeadersSayAll(input)
    ensures var s := Execute(input, width, schedule);
            s.failure.None? && ExpectedVectors(input, s.vectors) && forall r :: r in s.revisions <==> Seen(input, {}, r)
  {
    hide Execute, AllStopped, DistinctIds, Good, EndsWell, LendersAgree, Seen, Followers, ExpectedVectors, GoodBut;
    var s := Execute(input, width, schedule);
    GoodSucceeds(input, width, schedule);
    assert s.failure.None? by { EndsWellIsClean(input, s); }
    VectorsAsExpected(input, s);
    RevisionsWereAsked(input, s, {});
    EndsIs(input, width, schedule);
    SuccessMeansLeadersGood(input, width, schedule);
  }

  lemma {:induction false} EndsWellIsClean(input: Input, s: Pool)
    requires EndsWell(input, s)
    ensures s.failure.None?
  {}

  lemma {:induction false} SameOutcome(input: Input, width: int, schedule: seq<nat>, width': int, schedule': seq<nat>)
    requires DistinctIds(input) && Ends(input, width, schedule) && Ends(input, width', schedule')
    requires GoodBut(input, Followers(input)) ==> Good(input) && LendersAgree(input) && LeadersSayAll(input)
    ensures OutcomeOf(Execute(input, width, schedule)) == OutcomeOf(Execute(input, width', schedule'))
  {
    hide Execute, Ends, DistinctIds, Good, GoodBut, Followers, LendersAgree, LeadersSayAll, Seen, ExpectedVectors;
    if GoodBut(input, Followers(input)) {
      GoodOutcome(input, width, schedule);
      GoodOutcome(input, width', schedule');
      var s, t := Execute(input, width, schedule), Execute(input, width', schedule');
      SameExpectedVectors(input, s.vectors, t.vectors);
      assert s.revisions == t.revisions;
    } else {
      FailsWithoutLeaders(input, width, schedule);
      FailsWithoutLeaders(input, width', schedule');
    }
  }

  /** Two passes to compare: one document at a time, and every document at once. */
  lemma {:induction false} TheTwoPasses(input: Input) returns (one: seq<nat>, all: seq<nat>)
    requires DistinctIds(input) && GoodBut(input, Followers(input))
    ensures Ends(input, 1, one) && Ends(input, |input.documents|, all)
    ensures var s := Execute(input, 1, one);
            EndsWell(input, s) && forall i: nat :: i < |input.documents| ==> Borrowed(input, s, i) == Shadowed(input, i)
    ensures var t := Execute(input, |input.documents|, all);
            t.failure.None? ==> EndsWell(input, t) && forall i: nat :: i < |input.documents| ==> !Borrowed(input, t, i)
  {
    hide Execute, AllStopped, GoodBut, Followers, EndsWell, Each, Shadowed, OnlyOldHits, HitFromStart;
    var n := |input.documents|;
    one := RunToTheEnd(input, 1, []);
    EndsIs(input, 1, one);
    OneAtATime(input, one);
    all := EveryoneAtOnce(input);
    if Execute(input, n, all).failure.None? {
      EndsIs(input, n, all);
      SuccessEndsWell(input, n, all);
      NothingBorrowed(input, Execute(input, n, all));
    }
  }

  lemma {:induction false} EveryoneAtOnce(input: Input) returns (all: seq<nat>)
    ensures Ends(input, |input.documents|, all) && OnlyOldHits(input, Execute(input, |input.documents|, all))
  {
    hide Execute, AllStopped, Each, OnlyOldHits;
    var first := Each(|input.documents|);
    all := RunToTheEnd(input, |input.documents|, first);
    EndsIs(input, |input.documents|, all);
    assert all == first + all[|first|..];
    LaterRounds(input, |input.documents|, all[|first|..]);
  }

  lemma {:induction false} NothingBorrowed(input: Input, s: Pool)
    requires OnlyOldHits(input, s)
    ensures forall i: nat :: i < |input.documents| ==> !Borrowed(input, s, i)
  {}

  /** What the two passes show when they agree. */
  lemma {:induction false} AgreementMeans(input: Input, s: Pool, t: Pool)
    requires EndsWell(input, s) && forall i: nat :: i < |input.documents| ==> Borrowed(input, s, i) == Shadowed(input, i)
    requires EndsWell(input, t) && forall i: nat :: i < |input.documents| ==> !Borrowed(input, t, i)
    requires OutcomeOf(s) == OutcomeOf(t)
    ensures Good(input) && LendersAgree(input) && LeadersSayAll(input)
  {
    SuccessMeansGood(input, t, {});
    RevisionsWereAsked(input, s, Followers(input));
    hide Progress, Structure, Expected, GoodBut, Seen;
    forall j: nat, i: nat | Shadows(input, j, i) ensures Expected(input, j) == Expected(input, i) {
      var l := LenderIsLeader(input, s, t, i);
      if l != j {
        OneLeader(input, j, l, i);
        var m := LenderIsLeader(input, s, t, j);
        OneLeader(input, m, l, i);
      }
    }
  }

  lemma {:induction false} OneLeader(input: Input, m: nat, l: nat, i: nat)
    requires Shadows(input, m, i) && Shadows(input, l, i)
    ensures m == l || Shadowed(input, m) || Shadowed(input, l)
  {
    if m < l { assert Shadows(input, m, l); }
    if l < m { assert Shadows(input, l, m); }
  }

  /** A shadowed document is served by an unshadowed one, and both passes record it alike. */
  lemma {:induction false} LenderIsLeader(input: Input, s: Pool, t: Pool, i: nat) returns (l: nat)
    requires EndsWell(input, s) && forall i: nat :: i < |input.documents| ==> Borrowed(input, s, i) == Shadowed(input, i)
    requires EndsWell(input, t) && forall i: nat :: i < |input.documents| ==> !Borrowed(input, t, i)
    requires s.vectors == t.vectors && Shadowed(input, i)
    ensures Shadows(input, l, i) && !Shadowed(input, l) && Expected(input, l) == Expected(input, i)
  {
    hide Progress, Structure, Expected, DocumentOk, Recorded;
    OnlyDocumentsAreShadowed(input, i);
    assert DoneWell(input, s, i) && DoneWell(input, t, i);
    l :| Lends(input, s, l, i);
    assert !Borrowed(input, s, l);
    RecordedOnce(s.vectors, input.documents[i].id, Expected(input, l), Expected(input, i));
  }

  /**
   Success, the vectors and the revision are the same at every width and under every interleaving
   exactly when this holds: if the documents nothing shadows can be embedded then all can, each
   shadowed one to the vector it may be served instead, and none answered by a revision of its own.
   */
  lemma {:induction false} OutcomeIsScheduleFreeIff(input: Input)
    requires DistinctIds(input)
    ensures OutcomeIsScheduleFree(input) <==>
            (GoodBut(input, Followers(input)) ==> Good(input) && LendersAgree(input) && LeadersSayAll(input))
  {
    hide Execute, Ends, DistinctIds, Good, GoodBut, Followers, LendersAgree, LeadersSayAll, EndsWell, Borrowed, Shadowed;
    if OutcomeIsScheduleFree(input) && GoodBut(input, Followers(input)) {
      var one, all := TheTwoPasses(input);
      var s, t := Execute(input, 1, one), Execute(input, |input.documents|, all);
      EndsWellIsClean(input, s);
      assert OutcomeOf(s) == OutcomeOf(t);
      AgreementMeans(input, s, t);
    }
    if GoodBut(input, Followers(input)) ==> Good(input) && LendersAgree(input) && LeadersSayAll(input) {
      forall width, schedule, width', schedule' | Ends(input, width, schedule) && Ends(input, width', schedule')
        ensures OutcomeOf(Execute(input, width, schedule)) == OutcomeOf(Execute(input, width', schedule'))
      {
        SameOutcome(input, width, schedule, width', schedule');
      }
    }
  }

  /** Where nothing is shadowed, only entries from before the run are hits. */
  lemma {:induction false} HitsAreOldEntries(input: Input, s: Pool, i: nat)
    requires EndsWell(input, s) && i < |input.documents| && !Shadowed(input, i)
    ensures i in s.hits <==> HitFromStart(input, i)
  {
    hide Progress, Structure;
    assert DoneWell(input, s, i);
  }

  lemma {:induction false} HitsAreDocuments(input: Input, s: Pool, i: nat)
    requires Structure(input, s) && i in s.hits
    ensures i < |input.documents|
  {}

  lemma {:induction false} EndsWellIsStructured(input: Input, s: Pool)
    requires EndsWell(input, s)
    ensures Structure(input, s)
  {}

  lemma {:induction false} SameHits(input: Input, s: Pool, t: Pool)
    requires EndsWell(input, s) && EndsWell(input, t) && Followers(input) == {}
    ensures s.hits == t.hits
  {
    hide EndsWell, Structure, Shadowed;
    EndsWellIsStructured(input, s);
    EndsWellIsStructured(input, t);
    forall i | i in s.hits || i in t.hits ensures i in s.hits && i in t.hits {
      if i in s.hits { HitsAreDocuments(input, s, i); } else { HitsAreDocuments(input, t, i); }
      assert i !in Followers(input);
      HitsAreOldEntries(input, s, i);
      HitsAreOldEntries(input, t, i);
    }
  }

  lemma {:induction false} NobodyFollows(input: Input)
    requires Followers(input) == {}
    ensures forall i :: !Shadowed(input, i)
    ensures LendersAgree(input) && LeadersSayAll(input) && (GoodBut(input, Followers(input)) ==> Good(input))
  {
    hide Seen;
    forall i: nat ensures !Shadowed(input, i) {
      OnlyDocumentsAreShadowed(input, i);
      assert i !in Followers(input);
    }
    forall j: nat, i: nat ensures !Shadows(input, j, i) {
      assert Shadows(input, j, i) ==> Shadowed(input, i);
    }
  }

  lemma {:induction false} SameReport(input: Input, width: int, schedule: seq<nat>, width': int, schedule': seq<nat>)
    requires DistinctIds(input) && Ends(input, width, schedule) && Ends(input, width', schedule')
    requires GoodBut(input, Followers(input)) ==> Followers(input) == {}
    ensures ReportOf(Execute(input, width, schedule)) == ReportOf(Execute(input, width', schedule'))
  {
    hide Execute, AllStopped, DistinctIds, Good, GoodBut, Followers, EndsWell, LendersAgree, LeadersSayAll, Total, Shadowed;
    if GoodBut(input, Followers(input)) {
      NobodyFollows(input);
      var s, t := Execute(input, width, schedule), Execute(input, width', schedule');
      SameOutcome(input, width, schedule, width', schedule');
      GoodSucceeds(input, width, schedule);
      GoodSucceeds(input, width', schedule');
      EndsWellIsClean(input, s);
      EndsWellIsClean(input, t);
      SameHits(input, s, t);
      CountersAddUp(input, width, schedule);
      CountersAddUp(input, width', schedule');
    } else {
      FailsWithoutLeaders(input, width, schedule);
      FailsWithoutLeaders(input, width', schedule');
    }
  }

  lemma {:induction false} OldEntriesHit(input: Input, s: Pool, i: nat)
    requires EndsWell(input, s) && i < |input.documents| && HitFromStart(input, i)
    ensures i in s.hits
  {
    hide Progress, Structure;
    assert DoneWell(input, s, i);
  }

  lemma {:induction false} MoreHitsOneAtATime(input: Input, s: Pool, t: Pool)
    requires EndsWell(input, s) && forall i: nat :: i < |input.documents| ==> Borrowed(input, s, i) == Shadowed(input, i)
    requires EndsWell(input, t) && forall i: nat :: i < |input.documents| ==> !Borrowed(input, t, i)
    requires Followers(input) != {}
    ensures Total(input, t.hits, Hits, |input.documents|) < Total(input, s.hits, Hits, |input.documents|)
  {
    hide EndsWell, Structure, Shadowed, Total, HitFromStart;
    forall i | i in t.hits ensures i in s.hits {
      EndsWellIsStructured(input, t);
      HitsAreDocuments(input, t, i);
      assert !Borrowed(input, t, i);
      OldEntriesHit(input, s, i);
    }
    var i :| i in Followers(input);
    assert Borrowed(input, s, i) && !Borrowed(input, t, i);
    MoreHits(input, t.hits, s.hits, |input.documents|);
  }

  /**
   The whole report, counters included, is the same at every width and under every interleaving
   exactly when no document is shadowed, unless the unshadowed ones already make every pass fail.
   */
  lemma {:induction false} ReportIsScheduleFreeIff(input: Input)
    requires DistinctIds(input)
    ensures ReportIsScheduleFree(input) <==> (GoodBut(input, Followers(input)) ==> forall i: nat :: !Shadowed(input, i))
  {
    hide Execute, Ends, DistinctIds, GoodBut, Followers, EndsWell, Borrowed, Shadowed, Total;
    NobodyFollowsIff(input);
    if ReportIsScheduleFree(input) && GoodBut(input, Followers(input)) && Followers(input) != {} {
      var one, all := TheTwoPasses(input);
      var s, t := Execute(input, 1, one), Execute(input, |input.documents|, all);
      EndsWellIsClean(input, s);
      assert ReportOf(s) == ReportOf(t);
      EndsIs(input, 1, one);
      EndsIs(input, |input.documents|, all);
      CountersAddUp(input, 1, one);
      CountersAddUp(input, |input.documents|, all);
      MoreHitsOneAtATime(input, s, t);
    }
    if GoodBut(input, Followers(input)) ==> Followers(input) == {} {
      forall width, schedule, width', schedule' | Ends(input, width, schedule) && Ends(input, width', schedule')
        ensures ReportOf(Execute(input, width, schedule)) == ReportOf(Execute(input, width', schedule'))
      {
        SameReport(input, width, schedule, width', schedule');
      }
    }
  }

  lemma {:induction false} NobodyFollowsIff(input: Input)
    ensures Followers(input) == {} <==> forall i: nat :: !Shadowed(input, i)
  {
    hide Shadowed;
    if Followers(input) == {} { NobodyFollows(input); }
  }

  // ---------- one text under one key ----------

  lemma {:induction false} LeaderOf(input: Input, j: nat, i: nat) returns (l: nat)
    requires Shadows(input, j, i)
    ensures Shadows(input, l, i) && !Shadowed(input, l)
    decreases j
  {
    if Shadowed(input, j) {
      var k: nat :| Shadows(input, k, j);
      l := LeaderOf(input, k, i);
    } else {
      l := j;
    }
  }

  /** The cache is content-addressed: documents filed under one new key have one text. */
  ghost predicate OneTextPerKey(input: Input) {
    forall j: nat, i: nat :: Shadows(input, j, i) ==> input.documents[j].chunks == input.documents[i].chunks
  }

  lemma {:induction false} SameTextSameOutcome(input: Input, j: nat, i: nat, dimension: Option<nat>, revisions: set<string>)
    requires Shadows(input, j, i) && input.documents[j].chunks == input.documents[i].chunks
    ensures DocumentOk(input, j, dimension, revisions) ==> DocumentOk(input, i, dimension, revisions)
    ensures Expected(input, j) == Expected(input, i)
  {
    hide MeanOf;
    assert Replies(input, i) == Replies(input, j);
    if DocumentOk(input, j, dimension, revisions) {
      forall k: nat | k < |input.documents[i].chunks| ensures ReplyOk(input, i, k, dimension, revisions) {
        assert ReplyOk(input, j, k, dimension, revisions);
      }
    }
  }

  /** Under a content-addressed cache success, vectors and revision never depend on the schedule. */
  lemma {:induction false} ContentAddressedIsScheduleFree(input: Input)
    requires DistinctIds(input) && OneTextPerKey(input)
    ensures OutcomeIsScheduleFree(input)
  {
    OutcomeIsScheduleFreeIff(input);
    hide OutcomeIsScheduleFree, Expected, DocumentOk;
    if GoodBut(input, Followers(input)) {
      var d: nat, revisions :| GoodFor(input, Followers(input), d, revisions);
      forall i: nat | i < |input.documents| ensures DocumentOk(input, i, Some(d), revisions) {
        if Shadowed(input, i) {
          var j: nat :| Shadows(input, j, i);
          var l := LeaderOf(input, j, i);
          SameTextSameOutcome(input, l, i, Some(d), revisions);
        }
      }
      assert GoodFor(input, {}, d, revisions);
      forall j: nat, i: nat | Shadows(input, j, i) ensures Expected(input, j) == Expected(input, i) {
        SameTextSameOutcome(input, j, i, None, {});
      }
      forall r | Seen(input, {}, r) ensures Seen(input, Followers(input), r) { LeaderSays(input, r); }
    }
  }

  lemma {:induction false} LeaderSays(input: Input, r: string)
    requires OneTextPerKey(input) && Seen(input, {}, r)
    ensures Seen(input, Followers(input), r)
  {
    var i: nat, k: nat :| Says(input, i, k, r) && !HitFromStart(input, i);
    if Shadowed(input, i) {
      var j: nat :| Shadows(input, j, i);
      var l := LeaderOf(input, j, i);
      assert Says(input, l, k, r) && l !in Followers(input);
    } else {
      assert i !in Followers(input);
    }
  }

  // ---------- and two texts under one key ----------

  /** Two one-chunk documents under one key, a cache, and a provider that tells their texts apart. */
  function TwoTexts(key: string): Input {
    Input([Document("a", key, ["x"]), Document("b", key, ["y"])], true, map[],
          text => Answer(if text == "x" then [1.0] else [2.0], true, None))
  }

  lemma {:induction false} MeanOfOne(v: Vector)
    ensures MeanOf([v]) == v
  {
    assert [v][..0] == [];
    forall i | 0 <= i < |v| ensures MeanOf([v])[i] == v[i] {
      assert Sum([v], i) == Sum([], i) + v[i];
    }
  }

  /** The condition is not idle: with two texts under one key the recorded vectors depend on the schedule. */
  lemma {:induction false} TwoTextsDependOnSchedule(key: string)
    ensures DistinctIds(TwoTexts(key)) && !OutcomeIsScheduleFree(TwoTexts(key)) && !ReportIsScheduleFree(TwoTexts(key))
  {
    var input := TwoTexts(key);
    assert Shadows(input, 0, 1);
    assert Shadowed(input, 1) && 1 in Followers(input);
    assert GoodFor(input, Followers(input), 1, {}) by {
      assert ReplyOk(input, 0, 0, Some(1), {});
    }
    assert Replies(input, 0) == [[1.0]] && Replies(input, 1) == [[2.0]];
    MeanOfOne([1.0]);
    MeanOfOne([2.0]);
    assert [1.0][0] != [2.0][0];
    assert Expected(input, 0) != Expected(input, 1);
    OutcomeIsScheduleFreeIff(input);
    ReportIsScheduleFreeIff(input);
  }
}
