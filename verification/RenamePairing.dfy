/** Rename pairing of src/corpus_diff.ts: within one content hash, departed and arrived paths are sorted and zipped. */
module RenamePairing {
  import opened Ordering
  import opened Text

  datatype Artifact = Artifact(id: string, path: string, hash: Option<string>)

  datatype Rename = Rename(departure: Artifact, arrival: Artifact)

  predicate DistinctIds(s: seq<Artifact>) {
    forall i, j :: 0 <= i < j < |s| ==> s[i].id != s[j].id
  }

  /** Artifacts of one content stand at different paths. */
  predicate ApartWithinHash(s: seq<Artifact>) {
    forall i, j :: 0 <= i < j < |s| && s[i].hash.Some? && s[i].hash == s[j].hash ==> s[i].path != s[j].path
  }

  predicate PathAtMost(a: Artifact, b: Artifact) {
    AtMost(a.path, b.path)
  }

  // ---------- buckets ----------

  function WithHash(s: seq<Artifact>, h: string): (r: seq<Artifact>)
    ensures forall a :: a in r <==> a in s && a.hash == Some(h)
    ensures |r| <= |s|
  {
    if s == [] then []
    else
      var last := |s| - 1;
      WithHash(s[..last], h) + if s[last].hash == Some(h) then [s[last]] else []
  }

  /** The artifacts of one hash, by path. */
  function Bucket(s: seq<Artifact>, h: string): seq<Artifact> {
    Sort(WithHash(s, h), PathAtMost)
  }

  /** The hashes that occur, each once, in order of first occurrence. */
  function HashesSeen(s: seq<Artifact>): (r: seq<string>)
    ensures forall h :: h in r <==> exists a :: a in s && a.hash == Some(h)
  {
    if s == [] then []
    else
      var last := |s| - 1;
      var rest := HashesSeen(s[..last]);
      assert forall a :: a in s <==> a in s[..last] || a == s[last];
      if s[last].hash.Some? && s[last].hash.value !in rest then rest + [s[last].hash.value] else rest
  }

  function SortedHashes(s: seq<Artifact>): seq<string> {
    Sort(HashesSeen(s), AtMost)
  }

  /** Zip the first of both. */
  function Zip(departures: seq<Artifact>, arrivals: seq<Artifact>, pairs: nat): (r: seq<Rename>)
    requires pairs <= |departures| && pairs <= |arrivals|
    ensures |r| == pairs
    ensures forall i :: 0 <= i < pairs ==> r[i] == Rename(departures[i], arrivals[i])
  {
    seq(pairs, i requires 0 <= i < pairs => Rename(departures[i], arrivals[i]))
  }

  function Min(a: nat, b: nat): nat {
    if a <= b then a else b
  }

  /** The renames of one hash. */
  function RenamesFor(removed: seq<Artifact>, added: seq<Artifact>, h: string): seq<Rename> {
    var departures, arrivals := Bucket(removed, h), Bucket(added, h);
    Zip(departures, arrivals, Min(|departures|, |arrivals|))
  }

  function RenamesOver(removed: seq<Artifact>, added: seq<Artifact>, hashes: seq<string>): seq<Rename> {
    if hashes == [] then []
    else RenamesOver(removed, added, hashes[..|hashes| - 1]) + RenamesFor(removed, added, hashes[|hashes| - 1])
  }

  function Renames(removed: seq<Artifact>, added: seq<Artifact>): seq<Rename> {
    RenamesOver(removed, added, SortedHashes(removed))
  }

  function Departures(renames: seq<Rename>): (r: seq<Artifact>)
    ensures |r| == |renames|
  {
    seq(|renames|, i requires 0 <= i < |renames| => renames[i].departure)
  }

  function Arrivals(renames: seq<Rename>): (r: seq<Artifact>)
    ensures |r| == |renames|
  {
    seq(|renames|, i requires 0 <= i < |renames| => renames[i].arrival)
  }

  /** Those whose id is not taken. */
  function Unpaired(s: seq<Artifact>, taken: set<string>): (r: seq<Artifact>)
    ensures forall a :: a in r <==> a in s && a.id !in taken
    ensures |r| <= |s|
  {
    if s == [] then []
    else
      var last := |s| - 1;
      Unpaired(s[..last], taken) + if s[last].id !in taken then [s[last]] else []
  }

  function Ids(s: seq<Artifact>): set<string> {
    set a <- s :: a.id
  }

  // ---------- the routine ----------

  ghost predicate RawBucket(s: seq<Artifact>, raw: map<string, seq<Artifact>>, order: seq<string>, h: string) {
    (h in raw <==> h in order) && (if h in raw then raw[h] else []) == WithHash(s, h)
  }

  /** The buckets before they are sorted. */
  ghost predicate RawBuckets(s: seq<Artifact>, raw: map<string, seq<Artifact>>, order: seq<string>) {
    order == HashesSeen(s) && forall h {:trigger RawBucket(s, raw, order, h)} :: RawBucket(s, raw, order, h)
  }

  lemma {:induction false} HashesAppend(s: seq<Artifact>, a: Artifact)
    ensures HashesSeen(s + [a])
            == if a.hash.Some? && a.hash.value !in HashesSeen(s) then HashesSeen(s) + [a.hash.value] else HashesSeen(s)
  {
    assert (s + [a])[..|s|] == s;
  }

  lemma {:induction false} WithHashAppend(s: seq<Artifact>, a: Artifact, h: string)
    ensures WithHash(s + [a], h) == WithHash(s, h) + (if a.hash == Some(h) then [a] else [])
  {
    assert (s + [a])[..|s|] == s;
  }

  lemma {:induction false} RawUnchanged(s: seq<Artifact>, a: Artifact, raw: map<string, seq<Artifact>>, order: seq<string>)
    requires RawBuckets(s, raw, order) && a.hash.None?
    ensures RawBuckets(s + [a], raw, order)
  {
    hide HashesSeen, WithHash;
    HashesAppend(s, a);
    forall h ensures RawBucket(s + [a], raw, order, h) {
      assert RawBucket(s, raw, order, h);
      WithHashAppend(s, a, h);
    }
  }

  lemma {:induction false} RawGrown(s: seq<Artifact>, a: Artifact, g: string, raw: map<string, seq<Artifact>>, order: seq<string>)
    requires RawBuckets(s, raw, order) && a.hash == Some(g)
    ensures RawBuckets(s + [a], raw[g := (if g in raw then raw[g] else []) + [a]], if g in raw then order else order + [g])
  {
    hide HashesSeen, WithHash;
    HashesAppend(s, a);
    var grown, keys := raw[g := (if g in raw then raw[g] else []) + [a]], if g in raw then order else order + [g];
    assert RawBucket(s, raw, order, g);
    forall h ensures RawBucket(s + [a], grown, keys, h) {
      assert RawBucket(s, raw, order, h);
      WithHashAppend(s, a, h);
    }
  }

  method Group(artifacts: seq<Artifact>) returns (buckets: map<string, seq<Artifact>>, order: seq<string>)
    ensures order == HashesSeen(artifacts)
    ensures forall h :: h in buckets <==> h in order
    ensures forall h :: h in buckets ==> buckets[h] == Bucket(artifacts, h)
  {
    hide Sort, RawBuckets, HashesSeen, WithHash;
    var raw: map<string, seq<Artifact>> := map[];
    order := [];
    NoRaw();
    var i := 0;
    while i < |artifacts|
      invariant 0 <= i <= |artifacts| && RawBuckets(artifacts[..i], raw, order)
    {
      var a := artifacts[i];
      assert artifacts[..i + 1] == artifacts[..i] + [a];
      if a.hash.None? {
        RawUnchanged(artifacts[..i], a, raw, order);
      } else {
        var h := a.hash.value;
        RawGrown(artifacts[..i], a, h, raw, order);
        if h !in raw { order := order + [h]; }
        raw := raw[h := (if h in raw then raw[h] else []) + [a]];
      }
      i := i + 1;
    }
    assert artifacts[..i] == artifacts;
    buckets := map h | h in raw :: Sort(raw[h], PathAtMost);
    AllRaw(artifacts, raw, order);
  }

  lemma {:induction false} NoRaw()
    ensures RawBuckets([], map[], [])
  {}

  lemma {:induction false} AllRaw(s: seq<Artifact>, raw: map<string, seq<Artifact>>, order: seq<string>)
    requires RawBuckets(s, raw, order)
    ensures order == HashesSeen(s) && (forall h :: h in raw <==> h in order)
    ensures forall h :: h in raw ==> raw[h] == WithHash(s, h)
  {
    hide HashesSeen, WithHash;
    forall h ensures (h in raw <==> h in order) && (h in raw ==> raw[h] == WithHash(s, h)) {
      assert RawBucket(s, raw, order, h);
    }
  }

  /** The two id sets beside the renames found so far. */
  ghost predicate Marked(renames: seq<Rename>, pairedRemoved: set<string>, pairedAdded: set<string>) {
    pairedRemoved == Ids(Departures(renames)) && pairedAdded == Ids(Arrivals(renames))
  }

  /** The renames of one hash, added to those found so far. */
  method PairOne(departures: seq<Artifact>, arrivals: seq<Artifact>, before: seq<Rename>, removedIds: set<string>, addedIds: set<string>)
    returns (renames: seq<Rename>, pairedRemoved: set<string>, pairedAdded: set<string>)
    requires Marked(before, removedIds, addedIds)
    ensures Marked(renames, pairedRemoved, pairedAdded)
    ensures renames == before + Zip(departures, arrivals, Min(|departures|, |arrivals|))
  {
    hide Marked;
    renames, pairedRemoved, pairedAdded := before, removedIds, addedIds;
    var pairs := Min(|departures|, |arrivals|);
    var index := 0;
    while index < pairs
      invariant 0 <= index <= pairs
      invariant renames == before + Zip(departures, arrivals, index)
      invariant Marked(renames, pairedRemoved, pairedAdded)
    {
      MarkOne(renames, pairedRemoved, pairedAdded, Rename(departures[index], arrivals[index]));
      renames := renames + [Rename(departures[index], arrivals[index])];
      pairedRemoved, pairedAdded := pairedRemoved + {departures[index].id}, pairedAdded + {arrivals[index].id};
      index := index + 1;
    }
  }

  lemma {:induction false} NothingPaired(removed: seq<Artifact>, added: seq<Artifact>)
    ensures RenamesOver(removed, added, []) == [] && Marked([], {}, {})
  {}

  lemma {:induction false} NextHash(removed: seq<Artifact>, added: seq<Artifact>, hashes: seq<string>, i: nat)
    requires i < |hashes|
    ensures var departures, arrivals := Bucket(removed, hashes[i]), Bucket(added, hashes[i]);
            RenamesOver(removed, added, hashes[..i + 1])
            == RenamesOver(removed, added, hashes[..i]) + Zip(departures, arrivals, Min(|departures|, |arrivals|))
  {
    hide Bucket, Zip;
    assert hashes[..i + 1][..i] == hashes[..i];
  }

  method PairRenames(removed: seq<Artifact>, added: seq<Artifact>)
    returns (renames: seq<Rename>, unpairedRemoved: seq<Artifact>, unpairedAdded: seq<Artifact>)
    ensures renames == Renames(removed, added)
    ensures unpairedRemoved == Unpaired(removed, Ids(Departures(renames)))
    ensures unpairedAdded == Unpaired(added, Ids(Arrivals(renames)))
  {
    hide Sort, HashesSeen, WithHash, Bucket, Zip, Unpaired, RenamesOver, Ids, Departures, Arrivals, Min;
    var removedByHash, keys := Group(removed);
    var addedByHash, addedKeys := Group(added);
    NothingPaired(removed, added);
    renames := [];
    var pairedRemoved: set<string>, pairedAdded: set<string> := {}, {};
    var hashes := Sort(keys, AtMost);
    SortKeepsMembers(keys, AtMost);
    var i := 0;
    while i < |hashes|
      invariant 0 <= i <= |hashes|
      invariant renames == RenamesOver(removed, added, hashes[..i])
      invariant Marked(renames, pairedRemoved, pairedAdded)
    {
      var hash := hashes[i];
      assert hash in removedByHash;
      NextHash(removed, added, hashes, i);
      if hash !in addedByHash { NothingArrives(added, hash); }
      var arrivals := if hash in addedByHash then addedByHash[hash] else [];
      renames, pairedRemoved, pairedAdded := PairOne(removedByHash[hash], arrivals, renames, pairedRemoved, pairedAdded);
      i := i + 1;
    }
    assert hashes[..i] == hashes;
    unpairedRemoved, unpairedAdded := Unpaired(removed, pairedRemoved), Unpaired(added, pairedAdded);
  }

  lemma {:induction false} NoneWithHash(s: seq<Artifact>, h: string)
    requires forall a :: a in s ==> a.hash != Some(h)
    ensures Bucket(s, h) == []
  {
    if s == [] {
    } else {
      NoneWithHash(s[..|s| - 1], h);
    }
  }

  lemma {:induction false} NothingArrives(added: seq<Artifact>, h: string)
    requires h !in HashesSeen(added)
    ensures Bucket(added, h) == []
  {
    NoneWithHash(added, h);
  }

  lemma {:induction false} MarkOne(renames: seq<Rename>, pairedRemoved: set<string>, pairedAdded: set<string>, r: Rename)
    requires Marked(renames, pairedRemoved, pairedAdded)
    ensures Marked(renames + [r], pairedRemoved + {r.departure.id}, pairedAdded + {r.arrival.id})
  {
    assert Departures(renames + [r]) == Departures(renames) + [r.departure];
    assert Arrivals(renames + [r]) == Arrivals(renames) + [r.arrival];
  }

  // ---------- what the pairing comes to ----------

  lemma {:induction false} PathOrder()
    ensures TotalPreorder(PathAtMost)
  {
    hide AtMost;
    forall x, y ensures PathAtMost(x, y) || PathAtMost(y, x) { AtMostTotal(x.path, y.path); }
    forall x, y, z | PathAtMost(x, y) && PathAtMost(y, z) ensures PathAtMost(x, z) { AtMostTransitive(x.path, y.path, z.path); }
  }

  lemma {:induction false} BucketHolds(s: seq<Artifact>, h: string)
    ensures forall a :: a in Bucket(s, h) <==> a in s && a.hash == Some(h)
  {
    hide WithHash, Sort;
    SortKeepsMembers(WithHash(s, h), PathAtMost);
  }

  lemma {:induction false} WithHashDistinct(s: seq<Artifact>, h: string)
    requires DistinctIds(s)
    ensures Distinct(WithHash(s, h))
  {
    if s == [] {
    } else {
      var last := |s| - 1;
      WithHashDistinct(s[..last], h);
      assert forall a :: a in s[..last] ==> a.id != s[last].id;
    }
  }

  lemma {:induction false} BucketDistinct(s: seq<Artifact>, h: string)
    requires DistinctIds(s)
    ensures Distinct(Bucket(s, h))
  {
    hide WithHash, Sort;
    WithHashDistinct(s, h);
    SortKeepsDistinct(WithHash(s, h), PathAtMost);
  }

  lemma {:induction false} HashesDistinct(s: seq<Artifact>)
    ensures Distinct(HashesSeen(s))
  {
    if s == [] {
    } else {
      HashesDistinct(s[..|s| - 1]);
    }
  }

  lemma {:induction false} SortedHashesHold(s: seq<Artifact>)
    ensures Distinct(SortedHashes(s)) && Ordered(AtMost, SortedHashes(s))
    ensures forall h :: h in SortedHashes(s) <==> exists a :: a in s && a.hash == Some(h)
  {
    HashesDistinct(s);
    AtMostIsTotalPreorder();
    hide Sort, AtMost;
    SortKeepsDistinct(HashesSeen(s), AtMost);
    SortKeepsMembers(HashesSeen(s), AtMost);
    SortOrders(HashesSeen(s), AtMost);
  }

  function RenamesWith(renames: seq<Rename>, h: string): (r: seq<Rename>)
  {
    if renames == [] then []
    else
      var last := |renames| - 1;
      RenamesWith(renames[..last], h) + if renames[last].departure.hash == Some(h) then [renames[last]] else []
  }

  lemma {:induction false} RenamesWithParts(a: seq<Rename>, b: seq<Rename>, h: string)
    ensures RenamesWith(a + b, h) == RenamesWith(a, h) + RenamesWith(b, h)
    decreases |b|
  {
    if b == [] {
      assert a + b == a;
    } else {
      var last := |b| - 1;
      RenamesWithParts(a, b[..last], h);
      assert (a + b)[..|a + b| - 1] == a + b[..last];
    }
  }

  lemma {:induction false} AllOrNone(renames: seq<Rename>, g: string, h: string)
    requires forall r :: r in renames ==> r.departure.hash == Some(g)
    ensures RenamesWith(renames, h) == if g == h then renames else []
  {
    if renames == [] {
    } else {
      AllOrNone(renames[..|renames| - 1], g, h);
      assert renames == renames[..|renames| - 1] + [renames[|renames| - 1]];
    }
  }

  lemma {:induction false} RenamesForHold(removed: seq<Artifact>, added: seq<Artifact>, h: string)
    ensures |RenamesFor(removed, added, h)| == Min(|Bucket(removed, h)|, |Bucket(added, h)|)
    ensures forall r :: r in RenamesFor(removed, added, h) ==>
      r.departure in removed && r.arrival in added && r.departure.hash == Some(h) == r.arrival.hash
  {
    hide Bucket;
    BucketHolds(removed, h);
    BucketHolds(added, h);
  }

  lemma {:induction false} RenamesOverWith(removed: seq<Artifact>, added: seq<Artifact>, hashes: seq<string>, h: string)
    requires Distinct(hashes)
    ensures RenamesWith(RenamesOver(removed, added, hashes), h) == if h in hashes then RenamesFor(removed, added, h) else []
  {
    hide RenamesFor;
    if hashes == [] {
    } else {
      var last := |hashes| - 1;
      RenamesOverWith(removed, added, hashes[..last], h);
      RenamesWithParts(RenamesOver(removed, added, hashes[..last]), RenamesFor(removed, added, hashes[last]), h);
      RenamesForHold(removed, added, hashes[last]);
      AllOrNone(RenamesFor(removed, added, hashes[last]), hashes[last], h);
      assert hashes[last] !in hashes[..last];
    }
  }

  /** One hash gives exactly as many renames as it has departures and arrivals to pair: sorted, and zipped. */
  lemma {:induction false} RenamesOfOneHash(removed: seq<Artifact>, added: seq<Artifact>, h: string)
    ensures RenamesWith(Renames(removed, added), h) == RenamesFor(removed, added, h)
    ensures |RenamesWith(Renames(removed, added), h)| == Min(|Bucket(removed, h)|, |Bucket(added, h)|)
  {
    hide RenamesFor, RenamesWith, RenamesOver, SortedHashes;
    SortedHashesHold(removed);
    RenamesOverWith(removed, added, SortedHashes(removed), h);
    RenamesForHold(removed, added, h);
    if h !in SortedHashes(removed) { NothingDeparts(removed, added, h); }
  }

  lemma {:induction false} NothingDeparts(removed: seq<Artifact>, added: seq<Artifact>, h: string)
    requires forall a :: a in removed ==> a.hash != Some(h)
    ensures RenamesFor(removed, added, h) == []
  {
    NoneWithHash(removed, h);
  }

  /** Every rename joins one departure and one arrival of one hash. */
  lemma {:induction false} RenamesHold(removed: seq<Artifact>, added: seq<Artifact>, hashes: seq<string>)
    ensures forall r :: r in RenamesOver(removed, added, hashes) ==>
      r.departure in removed && r.arrival in added && r.departure.hash.Some? && r.departure.hash == r.arrival.hash
      && r.departure.hash.value in hashes
  {
    hide RenamesFor;
    if hashes == [] {
    } else {
      var last := |hashes| - 1;
      RenamesHold(removed, added, hashes[..last]);
      RenamesForHold(removed, added, hashes[last]);
    }
  }

  // ---------- conservation ----------

  lemma {:induction false} RenamesOverDistinct(removed: seq<Artifact>, added: seq<Artifact>, hashes: seq<string>)
    requires DistinctIds(removed) && DistinctIds(added) && Distinct(hashes)
    ensures Distinct(Departures(RenamesOver(removed, added, hashes))) && Distinct(Arrivals(RenamesOver(removed, added, hashes)))
  {
    hide RenamesFor;
    if hashes == [] {
    } else {
      var last := |hashes| - 1;
      var rest, own := RenamesOver(removed, added, hashes[..last]), RenamesFor(removed, added, hashes[last]);
      RenamesOverDistinct(removed, added, hashes[..last]);
      RenamesHold(removed, added, hashes[..last]);
      RenamesForHold(removed, added, hashes[last]);
      OwnDistinct(removed, added, hashes[last]);
      assert hashes[last] !in hashes[..last];
      TwoParts(rest, own, hashes[last]);
    }
  }

  lemma {:induction false} OwnDistinct(removed: seq<Artifact>, added: seq<Artifact>, h: string)
    requires DistinctIds(removed) && DistinctIds(added)
    ensures Distinct(Departures(RenamesFor(removed, added, h))) && Distinct(Arrivals(RenamesFor(removed, added, h)))
  {
    hide Bucket;
    BucketDistinct(removed, h);
    BucketDistinct(added, h);
  }

  lemma {:induction false} TwoParts(rest: seq<Rename>, own: seq<Rename>, h: string)
    requires Distinct(Departures(rest)) && Distinct(Departures(own)) && Distinct(Arrivals(rest)) && Distinct(Arrivals(own))
    requires forall r :: r in rest ==> r.departure.hash != Some(h) && r.departure.hash == r.arrival.hash
    requires forall r :: r in own ==> r.departure.hash == Some(h) == r.arrival.hash
    ensures Distinct(Departures(rest + own)) && Distinct(Arrivals(rest + own))
  {
    assert Departures(rest + own) == Departures(rest) + Departures(own);
    assert Arrivals(rest + own) == Arrivals(rest) + Arrivals(own);
    assert forall i :: 0 <= i < |rest| ==> rest[i] in rest;
    assert forall i :: 0 <= i < |own| ==> own[i] in own;
  }

  /** Those whose id is taken. */
  function Paired(s: seq<Artifact>, taken: set<string>): (r: seq<Artifact>)
    ensures forall a :: a in r <==> a in s && a.id in taken
  {
    if s == [] then []
    else
      var last := |s| - 1;
      Paired(s[..last], taken) + if s[last].id in taken then [s[last]] else []
  }

  /** Each artifact is either left over or taken. */
  lemma {:induction false} LeftOrTaken(s: seq<Artifact>, taken: set<string>)
    ensures |Unpaired(s, taken)| + |Paired(s, taken)| == |s|
  {
    if s == [] {
    } else {
      LeftOrTaken(s[..|s| - 1], taken);
    }
  }

  lemma {:induction false} PairedDistinct(s: seq<Artifact>, taken: set<string>)
    requires DistinctIds(s)
    ensures Distinct(Paired(s, taken))
  {
    if s == [] {
    } else {
      var last := |s| - 1;
      PairedDistinct(s[..last], taken);
      assert forall a :: a in s[..last] ==> a.id != s[last].id;
    }
  }

  lemma {:induction false} SameMembersSameLength<T>(a: seq<T>, b: seq<T>)
    requires Distinct(a) && Distinct(b) && forall x :: x in a <==> x in b
    ensures |a| == |b|
  {
    forall x ensures multiset(a)[x] == multiset(b)[x] {
      if x in a {
        MultisetOne(a, x);
        MultisetOne(b, x);
      } else {
        assert x !in multiset(a) && x !in multiset(b);
      }
    }
    assert multiset(a) == multiset(b);
    assert |a| == |multiset(a)| && |b| == |multiset(b)|;
  }

  lemma {:induction false} UnpairedLength(s: seq<Artifact>, taken: seq<Artifact>)
    requires DistinctIds(s) && Distinct(taken) && forall a :: a in taken ==> a in s
    ensures |Unpaired(s, Ids(taken))| + |taken| == |s|
  {
    LeftOrTaken(s, Ids(taken));
    PairedDistinct(s, Ids(taken));
    forall a ensures a in Paired(s, Ids(taken)) <==> a in taken {
      if a in s { IdTaken(s, taken, a); }
    }
    SameMembersSameLength(Paired(s, Ids(taken)), taken);
  }

  lemma {:induction false} IdTaken(s: seq<Artifact>, taken: seq<Artifact>, a: Artifact)
    requires DistinctIds(s) && (forall x :: x in taken ==> x in s) && a in s
    ensures a.id in Ids(taken) <==> a in taken
  {
    if a.id in Ids(taken) {
      var x :| x in taken && x.id == a.id;
      SameIdSame(s, x, a);
    }
  }

  lemma {:induction false} SameIdSame(s: seq<Artifact>, x: Artifact, y: Artifact)
    requires DistinctIds(s) && x in s && y in s && x.id == y.id
    ensures x == y
  {
    var i :| 0 <= i < |s| && s[i] == x;
    var j :| 0 <= j < |s| && s[j] == y;
    assert !(i < j) && !(j < i);
  }

  /**
   The pairing conserves artifacts: every departure is the start of exactly one rename or left over,
   every arrival the end of exactly one or left over, and no hash is left over on both sides.
   */
  lemma {:induction false} PairingConserves(removed: seq<Artifact>, added: seq<Artifact>)
    requires DistinctIds(removed) && DistinctIds(added)
    ensures var renames := Renames(removed, added);
            var leftRemoved, leftAdded := Unpaired(removed, Ids(Departures(renames))), Unpaired(added, Ids(Arrivals(renames)));
            && Distinct(Departures(renames)) && Distinct(Arrivals(renames))
            && (forall a :: a in removed <==> a in Departures(renames) || a in leftRemoved)
            && (forall a :: a in added <==> a in Arrivals(renames) || a in leftAdded)
            && |renames| + |leftRemoved| == |removed| && |renames| + |leftAdded| == |added|
            && (forall d, a :: d in leftRemoved && a in leftAdded && d.hash.Some? ==> d.hash != a.hash)
  {
    var hashes := SortedHashes(removed);
    var renames := Renames(removed, added);
    hide SortedHashes, RenamesOver, Bucket;
    SortedHashesHold(removed);
    RenamesOverDistinct(removed, added, hashes);
    RenamesHold(removed, added, hashes);
    EndsAreMembers(removed, added, renames);
    UnpairedLength(removed, Departures(renames));
    UnpairedLength(added, Arrivals(renames));
    forall a | a in removed ensures a in Departures(renames) || a in Unpaired(removed, Ids(Departures(renames))) {
      IdTaken(removed, Departures(renames), a);
    }
    forall a | a in added ensures a in Arrivals(renames) || a in Unpaired(added, Ids(Arrivals(renames))) {
      IdTaken(added, Arrivals(renames), a);
    }
    forall d, a | d in Unpaired(removed, Ids(Departures(renames))) && a in Unpaired(added, Ids(Arrivals(renames))) && d.hash.Some?
      ensures d.hash != a.hash
    {
      NeverBothLeft(removed, added, d, a);
    }
  }

  lemma {:induction false} EndsAreMembers(removed: seq<Artifact>, added: seq<Artifact>, renames: seq<Rename>)
    requires forall r :: r in renames ==> r.departure in removed && r.arrival in added
    ensures forall a :: a in Departures(renames) ==> a in removed
    ensures forall a :: a in Arrivals(renames) ==> a in added
  {
    assert forall i :: 0 <= i < |renames| ==> renames[i] in renames;
  }

  lemma {:induction false} RenamesWithin(renames: seq<Rename>, h: string)
    ensures forall r :: r in RenamesWith(renames, h) ==> r in renames
  {
    if renames == [] {
    } else {
      RenamesWithin(renames[..|renames| - 1], h);
    }
  }

  /** Of one hash, either every departure is paired or every arrival is. */
  lemma {:induction false} NeverBothLeft(removed: seq<Artifact>, added: seq<Artifact>, d: Artifact, a: Artifact)
    requires d in removed && a in added && d.hash.Some?
    requires d.id !in Ids(Departures(Renames(removed, added))) && a.id !in Ids(Arrivals(Renames(removed, added)))
    ensures d.hash != a.hash
  {
    if d.hash == a.hash {
      var h := d.hash.value;
      var renames, own := Renames(removed, added), RenamesFor(removed, added, h);
      BucketHolds(removed, h);
      BucketHolds(added, h);
      RenamesOfOneHash(removed, added, h);
      RenamesWithin(renames, h);
      hide Renames, Bucket, RenamesWith;
      var i :| 0 <= i < |Bucket(removed, h)| && Bucket(removed, h)[i] == d;
      var j :| 0 <= j < |Bucket(added, h)| && Bucket(added, h)[j] == a;
      if i < |own| { TakenDeparture(renames, own, i); }
      if j < |own| { TakenArrival(renames, own, j); }
    }
  }

  lemma {:induction false} TakenDeparture(renames: seq<Rename>, own: seq<Rename>, i: nat)
    requires i < |own| && forall r :: r in own ==> r in renames
    ensures own[i].departure.id in Ids(Departures(renames))
  {
    assert own[i] in renames;
    var k :| 0 <= k < |renames| && renames[k] == own[i];
    assert Departures(renames)[k] == own[i].departure;
  }

  lemma {:induction false} TakenArrival(renames: seq<Rename>, own: seq<Rename>, i: nat)
    requires i < |own| && forall r :: r in own ==> r in renames
    ensures own[i].arrival.id in Ids(Arrivals(renames))
  {
    assert own[i] in renames;
    var k :| 0 <= k < |renames| && renames[k] == own[i];
    assert Arrivals(renames)[k] == own[i].arrival;
  }

  // ---------- the order of the input, and the direction ----------

  predicate SameMembers<T(==)>(s: seq<T>, t: seq<T>) {
    (forall x :: x in s ==> x in t) && (forall x :: x in t ==> x in s)
  }

  lemma {:induction false} BucketIgnoresOrder(s: seq<Artifact>, t: seq<Artifact>, h: string)
    requires DistinctIds(s) && DistinctIds(t) && ApartWithinHash(s) && SameMembers(s, t)
    ensures Bucket(s, h) == Bucket(t, h)
  {
    PathOrder();
    WithHashDistinct(s, h);
    WithHashDistinct(t, h);
    hide AtMost, TotalPreorder, Sort, WithHash;
    forall x, y | x in WithHash(s, h) && y in WithHash(s, h) && PathAtMost(x, y) && PathAtMost(y, x) ensures x == y {
      AtMostTotal(x.path, y.path);
      SamePathSame(s, x, y);
    }
    SortIsCanonical(PathAtMost, WithHash(s, h), WithHash(t, h));
  }

  lemma {:induction false} SamePathSame(s: seq<Artifact>, x: Artifact, y: Artifact)
    requires ApartWithinHash(s) && x in s && y in s && x.path == y.path && x.hash.Some? && x.hash == y.hash
    ensures x == y
  {
    var i :| 0 <= i < |s| && s[i] == x;
    var j :| 0 <= j < |s| && s[j] == y;
    assert !(i < j) && !(j < i);
  }

  lemma {:induction false} HashesIgnoreOrder(s: seq<Artifact>, t: seq<Artifact>)
    requires SameMembers(s, t)
    ensures SortedHashes(s) == SortedHashes(t)
  {
    hide SortedHashes, AtMost;
    SortedHashesHold(s);
    SortedHashesHold(t);
    forall x, y | x in SortedHashes(s) && y in SortedHashes(s) && AtMost(x, y) && AtMost(y, x) ensures x == y { AtMostTotal(x, y); }
    OrderedListUnique(AtMost, SortedHashes(s), SortedHashes(t));
  }

  lemma {:induction false} RenamesOverIgnoreOrder(removed: seq<Artifact>, added: seq<Artifact>, removed': seq<Artifact>,
                                                  added': seq<Artifact>, hashes: seq<string>)
    requires forall h :: Bucket(removed, h) == Bucket(removed', h) && Bucket(added, h) == Bucket(added', h)
    ensures RenamesOver(removed, added, hashes) == RenamesOver(removed', added', hashes)
  {
    hide Bucket;
    if hashes == [] {
    } else {
      RenamesOverIgnoreOrder(removed, added, removed', added', hashes[..|hashes| - 1]);
    }
  }

  /** With no path twice under one content, the pairs do not depend on the order artifacts are listed in. */
  lemma {:induction false} PairingIgnoresOrder(removed: seq<Artifact>, added: seq<Artifact>, removed': seq<Artifact>, added': seq<Artifact>)
    requires DistinctIds(removed) && DistinctIds(removed') && ApartWithinHash(removed) && SameMembers(removed, removed')
    requires DistinctIds(added) && DistinctIds(added') && ApartWithinHash(added) && SameMembers(added, added')
    ensures Renames(removed, added) == Renames(removed', added')
  {
    hide Bucket, DistinctIds, ApartWithinHash, SameMembers, SortedHashes, RenamesOver;
    forall h ensures Bucket(removed, h) == Bucket(removed', h) && Bucket(added, h) == Bucket(added', h) {
      BucketIgnoresOrder(removed, removed', h);
      BucketIgnoresOrder(added, added', h);
    }
    HashesIgnoreOrder(removed, removed');
    RenamesOverIgnoreOrder(removed, added, removed', added', SortedHashes(removed));
  }

  lemma {:induction false} TwoInBucket(a: Artifact, b: Artifact, h: string)
    requires a.hash == b.hash == Some(h) && a.path == b.path
    ensures Bucket([a, b], h) == [a, b]
  {
    assert [a, b][..1] == [a] && [a][..0] == [];
    assert WithHash([a], h) == [a] && WithHash([a, b], h) == [a, b];
    AtMostTotal(a.path, b.path);
    assert [a, b][1..] == [b] && [b][1..] == [];
    assert Sort([b], PathAtMost) == [b];
  }

  lemma {:induction false} OneInBucket(c: Artifact, h: string)
    requires c.hash == Some(h)
    ensures Bucket([c], h) == [c]
  {
    assert [c][..0] == [] && WithHash([c], h) == [c] && [c][1..] == [];
    assert Sort([], PathAtMost) == [];
    assert Sort([c], PathAtMost) == Insert(c, [], PathAtMost) == [c];
  }

  lemma {:induction false} FirstIsRenamed(a: Artifact, b: Artifact, c: Artifact, h: string)
    requires a.hash == b.hash == c.hash == Some(h) && a.path == b.path
    ensures RenamesWith(Renames([a, b], [c]), h) == [Rename(a, c)]
  {
    hide Bucket, Renames, RenamesWith;
    TwoInBucket(a, b, h);
    OneInBucket(c, h);
    RenamesOfOneHash([a, b], [c], h);
    assert RenamesFor([a, b], [c], h) == [Rename(a, c)];
  }

  /** The condition is needed: of two departures of one content at one path, the one listed first is renamed. */
  lemma {:induction false} TiesDependOnOrder(a: Artifact, b: Artifact, c: Artifact, h: string)
    requires a.hash == b.hash == c.hash == Some(h) && a.path == b.path && a != b
    ensures Renames([a, b], [c]) != Renames([b, a], [c])
  {
    hide Renames, RenamesWith;
    FirstIsRenamed(a, b, c, h);
    FirstIsRenamed(b, a, c, h);
    assert RenamesWith(Renames([a, b], [c]), h)[0].departure == a;
    assert RenamesWith(Renames([b, a], [c]), h)[0].departure == b;
  }

  function Swapped(renames: seq<Rename>): seq<Rename> {
    seq(|renames|, i requires 0 <= i < |renames| => Rename(renames[i].arrival, renames[i].departure))
  }

  /** The hashes of a list that occur among the artifacts. */
  function Shared(hashes: seq<string>, s: seq<Artifact>): (r: seq<string>)
    ensures forall h :: h in r <==> h in hashes && h in HashesSeen(s)
  {
    if hashes == [] then []
    else
      var last := |hashes| - 1;
      Shared(hashes[..last], s) + if hashes[last] in HashesSeen(s) then [hashes[last]] else []
  }

  lemma {:induction false} SharedInOrder(hashes: seq<string>, s: seq<Artifact>)
    requires Ordered(AtMost, hashes) && Distinct(hashes)
    ensures Ordered(AtMost, Shared(hashes, s)) && Distinct(Shared(hashes, s))
  {
    hide AtMost, HashesSeen;
    if hashes == [] {
    } else {
      var last := |hashes| - 1;
      SharedInOrder(hashes[..last], s);
      assert forall h :: h in hashes[..last] ==> AtMost(h, hashes[last]) && h != hashes[last];
    }
  }

  lemma {:induction false} OnlySharedMatter(removed: seq<Artifact>, added: seq<Artifact>, hashes: seq<string>)
    ensures RenamesOver(removed, added, hashes) == RenamesOver(removed, added, Shared(hashes, added))
  {
    hide HashesSeen, RenamesFor;
    if hashes == [] {
    } else {
      var last := |hashes| - 1;
      OnlySharedMatter(removed, added, hashes[..last]);
      if hashes[last] in HashesSeen(added) {
        assert Shared(hashes, added)[..|Shared(hashes, added)| - 1] == Shared(hashes[..last], added);
      } else {
        NothingForAbsent(removed, added, hashes[last]);
        assert Shared(hashes, added) == Shared(hashes[..last], added);
      }
    }
  }

  lemma {:induction false} NothingForAbsent(removed: seq<Artifact>, added: seq<Artifact>, h: string)
    requires h !in HashesSeen(added)
    ensures RenamesFor(removed, added, h) == []
  {
    NothingArrives(added, h);
  }

  lemma {:induction false} SwapOver(removed: seq<Artifact>, added: seq<Artifact>, hashes: seq<string>)
    ensures RenamesOver(added, removed, hashes) == Swapped(RenamesOver(removed, added, hashes))
  {
    hide Bucket;
    if hashes == [] {
    } else {
      var last := |hashes| - 1;
      SwapOver(removed, added, hashes[..last]);
      var rest, own := RenamesOver(removed, added, hashes[..last]), RenamesFor(removed, added, hashes[last]);
      assert RenamesFor(added, removed, hashes[last]) == Swapped(own);
      assert Swapped(rest + own) == Swapped(rest) + Swapped(own);
    }
  }

  lemma {:induction false} SharedBothWays(removed: seq<Artifact>, added: seq<Artifact>)
    ensures Shared(SortedHashes(removed), added) == Shared(SortedHashes(added), removed)
  {
    var a, b := SortedHashes(removed), SortedHashes(added);
    hide SortedHashes, AtMost, Shared, HashesSeen;
    SortedHashesHold(removed);
    SortedHashesHold(added);
    SharedInOrder(a, added);
    SharedInOrder(b, removed);
    forall h ensures h in Shared(a, added) <==> h in Shared(b, removed) {}
    forall x, y | x in Shared(a, added) && y in Shared(a, added) && AtMost(x, y) && AtMost(y, x) ensures x == y { AtMostTotal(x, y); }
    OrderedListUnique(AtMost, Shared(a, added), Shared(b, removed));
  }

  /** Comparing the snapshots the other way round inverts every pair, in the same order. */
  lemma {:induction false} SwappingInverts(removed: seq<Artifact>, added: seq<Artifact>)
    ensures Renames(added, removed) == Swapped(Renames(removed, added))
  {
    hide SortedHashes, Shared, RenamesOver, Swapped;
    OnlySharedMatter(removed, added, SortedHashes(removed));
    OnlySharedMatter(added, removed, SortedHashes(added));
    SharedBothWays(removed, added);
    SwapOver(removed, added, Shared(SortedHashes(removed), added));
  }
}
