/** What a diff tells its reader: both snapshots can be read off the entries, and renames go by path. */
module CorpusDiffReading {
  import opened Ordering
  import opened Text
  import opened RenamePairing
  import opened CorpusDiff

  // ---------- the current snapshot ----------

  /** The current artifact an entry is about. */
  function Now(e: Entry): Artifact {
    Artifact(e.id, e.path, e.hash)
  }

  ghost predicate Shows(entries: seq<Entry>, a: Artifact) {
    exists e :: e in entries && e.category != Removed && Now(e) == a
  }

  lemma {:induction false} KeptShows(previous: seq<Artifact>, current: seq<Artifact>, renames: seq<Rename>, a: Artifact)
    requires a in current && HasId(previous, a.id)
    ensures IsEntry(previous, current, renames, KeptEntry(a, ById(previous)[a.id]))
    ensures Now(KeptEntry(a, ById(previous)[a.id])) == a && KeptEntry(a, ById(previous)[a.id]).category != Removed
  {
    hide ById, HasId;
    assert IsKept(previous, current, KeptEntry(a, ById(previous)[a.id]));
  }

  lemma {:induction false} ArrivedShows(previous: seq<Artifact>, current: seq<Artifact>, a: Artifact) returns (e: Entry)
    requires DistinctIds(previous) && DistinctIds(current) && a in current && !HasId(previous, a.id)
    ensures IsEntry(previous, current, Renames(Missing(previous, current), Missing(current, previous)), e)
    ensures Now(e) == a && (e.category == Added || e.category == RenamedCandidate)
  {
    hide ById, HasId, Missing, Renames;
    var departed, arrived := Missing(previous, current), Missing(current, previous);
    var renames := Renames(departed, arrived);
    MissingDistinct(previous, current);
    MissingDistinct(current, previous);
    PairingConserves(departed, arrived);
    if a in Arrivals(renames) {
      var i :| 0 <= i < |renames| && Arrivals(renames)[i] == a;
      assert renames[i] in renames;
      e := RenameEntry(renames[i]);
      assert IsRename(renames, e);
    } else {
      e := PlainEntry(Added, a);
      assert IsLeft(Added, current, previous, Ids(Arrivals(renames)), e);
    }
  }

  lemma {:induction false} EntryIsCurrent(previous: seq<Artifact>, current: seq<Artifact>, e: Entry)
    requires DistinctIds(previous) && DistinctIds(current)
    requires IsEntry(previous, current, Renames(Missing(previous, current), Missing(current, previous)), e) && e.category != Removed
    ensures Now(e) in current
  {
    hide ById, HasId, Missing, Renames, Ids;
    var departed, arrived := Missing(previous, current), Missing(current, previous);
    MissingDistinct(previous, current);
    MissingDistinct(current, previous);
    RenameIdsDiffer(departed, arrived);
  }

  /** The entries other than removals show exactly the artifacts of the current snapshot, with id, path and content. */
  lemma {:induction false} DiffShowsCurrent(previous: seq<Artifact>, current: seq<Artifact>, a: Artifact)
    requires DistinctIds(previous) && DistinctIds(current)
    ensures Shows(EntriesOf(previous, current), a) <==> a in current
  {
    hide EntriesOf, HasId, ById, IsEntry, Missing, Renames;
    if a in current {
      if HasId(previous, a.id) {
        var e := KeptEntry(a, ById(previous)[a.id]);
        KeptShows(previous, current, Renames(Missing(previous, current), Missing(current, previous)), a);
        EntriesAre(previous, current, e);
      } else {
        var e := ArrivedShows(previous, current, a);
        EntriesAre(previous, current, e);
      }
    }
    if Shows(EntriesOf(previous, current), a) {
      var e :| e in EntriesOf(previous, current) && e.category != Removed && Now(e) == a;
      EntriesAre(previous, current, e);
      EntryIsCurrent(previous, current, e);
    }
  }

  // ---------- the previous snapshot ----------

  /** `e` tells of the previous artifact `a`: the same content, another content under the same id, another id and path, or its end. */
  predicate TellsOf(e: Entry, a: Artifact) {
    match e.category
    case Unchanged => a.id == e.id && a.hash == e.hash
    case ChangedContent => a.id == e.id && a.hash == e.previousHash && a.hash != e.hash
    case RenamedCandidate =>
      Some(a.id) == e.previousId && Some(a.path) == e.previousPath && a.hash == e.previousHash && a.hash == e.hash && a.hash.Some?
    case Removed => a == Now(e)
    case Added => false
  }

  lemma {:induction false} RenameTells(departed: seq<Artifact>, arrived: seq<Artifact>, a: Artifact) returns (r: Rename)
    requires a in Departures(Renames(departed, arrived))
    ensures r in Renames(departed, arrived) && TellsOf(RenameEntry(r), a)
  {
    hide RenamesOver, SortedHashes;
    var renames := Renames(departed, arrived);
    RenamesHold(departed, arrived, SortedHashes(departed));
    var i :| 0 <= i < |renames| && Departures(renames)[i] == a;
    r := renames[i];
  }

  lemma {:induction false} DepartedTold(previous: seq<Artifact>, current: seq<Artifact>, a: Artifact) returns (e: Entry)
    requires DistinctIds(previous) && DistinctIds(current) && a in previous && !HasId(current, a.id)
    ensures IsEntry(previous, current, Renames(Missing(previous, current), Missing(current, previous)), e) && TellsOf(e, a)
  {
    hide ById, HasId, Missing, Renames, RenameEntry, Departures, Ids, DistinctIds;
    var departed, arrived := Missing(previous, current), Missing(current, previous);
    var renames := Renames(departed, arrived);
    MissingDistinct(previous, current);
    MissingDistinct(current, previous);
    PairingConserves(departed, arrived);
    if a in Departures(renames) {
      var r := RenameTells(departed, arrived, a);
      e := RenameEntry(r);
      assert IsRename(renames, e);
    } else {
      e := PlainEntry(Removed, a);
      assert IsLeft(Removed, previous, current, Ids(Departures(renames)), e);
    }
  }

  lemma {:induction false} StayedTold(previous: seq<Artifact>, current: seq<Artifact>, renames: seq<Rename>, a: Artifact) returns (e: Entry)
    requires DistinctIds(previous) && a in previous && HasId(current, a.id)
    ensures IsEntry(previous, current, renames, e) && TellsOf(e, a)
  {
    var c :| c in current && c.id == a.id;
    assert HasId(previous, c.id);
    hide HasId, ById;
    ByIdFinds(previous, a);
    e := KeptEntry(c, ById(previous)[c.id]);
    assert IsKept(previous, current, e);
  }

  lemma {:induction false} EntryTold(previous: seq<Artifact>, current: seq<Artifact>, e: Entry) returns (a: Artifact)
    requires DistinctIds(previous) && DistinctIds(current)
    requires IsEntry(previous, current, Renames(Missing(previous, current), Missing(current, previous)), e) && e.category != Added
    ensures a in previous && TellsOf(e, a)
  {
    hide ById, HasId, Missing, RenamesOver, SortedHashes, Ids;
    var departed, arrived := Missing(previous, current), Missing(current, previous);
    var renames := Renames(departed, arrived);
    RenamesHold(departed, arrived, SortedHashes(departed));
    if IsKept(previous, current, e) {
      var c :| c in current && HasId(previous, c.id) && e == KeptEntry(c, ById(previous)[c.id]);
      a := ById(previous)[c.id];
    } else if IsRename(renames, e) {
      var r :| r in renames && e == RenameEntry(r);
      a := r.departure;
    } else {
      a :| a in previous && !HasId(current, a.id) && a.id !in Ids(Departures(renames)) && e == PlainEntry(Removed, a);
    }
  }

  /** Every previous artifact is told of by an entry, and every entry but an addition tells of one. */
  lemma {:induction false} DiffTellsPrevious(previous: seq<Artifact>, current: seq<Artifact>)
    requires DistinctIds(previous) && DistinctIds(current)
    ensures forall a :: a in previous ==> exists e :: e in EntriesOf(previous, current) && TellsOf(e, a)
    ensures forall e :: e in EntriesOf(previous, current) && e.category != Added ==> exists a :: a in previous && TellsOf(e, a)
  {
    hide EntriesOf, HasId, ById, IsEntry, Missing, Renames, TellsOf;
    var renames := Renames(Missing(previous, current), Missing(current, previous));
    forall a | a in previous ensures exists e :: e in EntriesOf(previous, current) && TellsOf(e, a) {
      if HasId(current, a.id) {
        var e := StayedTold(previous, current, renames, a);
        EntriesAre(previous, current, e);
      } else {
        var e := DepartedTold(previous, current, a);
        EntriesAre(previous, current, e);
      }
    }
    forall e | e in EntriesOf(previous, current) && e.category != Added ensures exists a :: a in previous && TellsOf(e, a) {
      EntriesAre(previous, current, e);
      var a := EntryTold(previous, current, e);
    }
  }

  /** The ids of an entry, by category. */
  ghost predicate IdsFit(previous: seq<Artifact>, current: seq<Artifact>, e: Entry) {
    match e.category
    case Unchanged => HasId(previous, e.id) && HasId(current, e.id)
    case ChangedContent => HasId(previous, e.id) && HasId(current, e.id)
    case Added => !HasId(previous, e.id) && HasId(current, e.id)
    case Removed => HasId(previous, e.id) && !HasId(current, e.id)
    case RenamedCandidate =>
      && !HasId(previous, e.id) && HasId(current, e.id)
      && e.previousId.Some? && HasId(previous, e.previousId.value) && !HasId(current, e.previousId.value)
  }

  lemma {:induction false} MembersHaveIds(s: seq<Artifact>, a: Artifact)
    requires a in s
    ensures HasId(s, a.id)
  {}

  lemma {:induction false} RenamedIdsFit(previous: seq<Artifact>, current: seq<Artifact>, r: Rename)
    requires DistinctIds(previous) && DistinctIds(current)
    requires r in Renames(Missing(previous, current), Missing(current, previous))
    ensures IdsFit(previous, current, RenameEntry(r))
  {
    var departed, arrived := Missing(previous, current), Missing(current, previous);
    MissingDistinct(previous, current);
    MissingDistinct(current, previous);
    RenameIdsDiffer(departed, arrived);
    hide HasId, DistinctIds, Missing, Renames;
    MembersHaveIds(previous, r.departure);
    MembersHaveIds(current, r.arrival);
  }

  /** What a category says about the two id sets. */
  lemma {:induction false} CategoryMeans(previous: seq<Artifact>, current: seq<Artifact>, e: Entry)
    requires DistinctIds(previous) && DistinctIds(current) && e in EntriesOf(previous, current)
    ensures IdsFit(previous, current, e)
  {
    hide EntriesOf, ById, Missing, Renames, Ids, Departures, Arrivals, HasId, DistinctIds, RenameEntry;
    EntriesAre(previous, current, e);
    var renames := Renames(Missing(previous, current), Missing(current, previous));
    if IsKept(previous, current, e) {
      var a :| a in current && HasId(previous, a.id) && e == KeptEntry(a, ById(previous)[a.id]);
      MembersHaveIds(current, a);
    } else if r :| r in renames && e == RenameEntry(r) {
      RenamedIdsFit(previous, current, r);
    } else if a :| a in current && !HasId(previous, a.id) && a.id !in Ids(Arrivals(renames)) && e == PlainEntry(Added, a) {
      MembersHaveIds(current, a);
    } else {
      var a :| a in previous && !HasId(current, a.id) && a.id !in Ids(Departures(renames)) && e == PlainEntry(Removed, a);
      MembersHaveIds(previous, a);
    }
  }

  // ---------- renames go by path ----------

  lemma {:induction false} BucketByPath(s: seq<Artifact>, h: string)
    ensures forall i, j :: 0 <= i < j < |Bucket(s, h)| ==> AtMost(Bucket(s, h)[i].path, Bucket(s, h)[j].path)
  {
    PathOrder();
    SortOrders(WithHash(s, h), PathAtMost);
    hide Sort, WithHash, AtMost;
    forall i, j | 0 <= i < j < |Bucket(s, h)| ensures AtMost(Bucket(s, h)[i].path, Bucket(s, h)[j].path) {
      assert PathAtMost(Bucket(s, h)[i], Bucket(s, h)[j]);
    }
  }

  /** The renames of one content join the departures in path order with the arrivals in path order. */
  lemma {:induction false} RenamesGoByPath(removed: seq<Artifact>, added: seq<Artifact>, h: string, i: nat, j: nat)
    requires i < j < |RenamesWith(Renames(removed, added), h)|
    ensures var renames := RenamesWith(Renames(removed, added), h);
            && AtMost(renames[i].departure.path, renames[j].departure.path)
            && AtMost(renames[i].arrival.path, renames[j].arrival.path)
  {
    RenamesOfOneHash(removed, added, h);
    BucketByPath(removed, h);
    BucketByPath(added, h);
    hide Bucket, Renames, RenamesWith, AtMost;
  }

  lemma {:induction false} PositionInBucket(s: seq<Artifact>, h: string, a: Artifact) returns (i: nat)
    requires a in s && a.hash == Some(h)
    ensures i < |Bucket(s, h)| && Bucket(s, h)[i] == a
  {
    BucketHolds(s, h);
    hide Bucket;
    i :| i < |Bucket(s, h)| && Bucket(s, h)[i] == a;
  }

  lemma {:induction false} EarlierInBucket(s: seq<Artifact>, h: string, i: nat, j: nat)
    requires i < |Bucket(s, h)| && j < |Bucket(s, h)| && Before(Bucket(s, h)[i].path, Bucket(s, h)[j].path)
    ensures i < j
  {
    BucketByPath(s, h);
    hide Bucket, AtMost;
    if j < i { AtMostTotal(Bucket(s, h)[i].path, Bucket(s, h)[j].path); }
  }

  lemma {:induction false} RenameInItsBucket(removed: seq<Artifact>, added: seq<Artifact>, r: Rename, h: string) returns (k: nat)
    requires r in Renames(removed, added) && r.departure.hash == Some(h)
    ensures k < |RenamesFor(removed, added, h)| && RenamesFor(removed, added, h)[k] == r
  {
    RenamesOfOneHash(removed, added, h);
    InItsClass(Renames(removed, added), h, r);
    hide Renames, RenamesWith, RenamesFor;
    k :| k < |RenamesFor(removed, added, h)| && RenamesFor(removed, added, h)[k] == r;
  }

  lemma {:induction false} InItsClass(renames: seq<Rename>, h: string, r: Rename)
    requires r in renames && r.departure.hash == Some(h)
    ensures r in RenamesWith(renames, h)
  {
    var last := |renames| - 1;
    if r == renames[last] {
    } else {
      assert r in renames[..last];
      InItsClass(renames[..last], h, r);
    }
  }

  /** Of one content, the departures that find a partner are those first by path, and so are the arrivals. */
  lemma {:induction false} EarliestArePaired(removed: seq<Artifact>, added: seq<Artifact>, r: Rename, d: Artifact, a: Artifact)
    requires r in Renames(removed, added)
    ensures d in removed && d.hash == r.departure.hash && Before(d.path, r.departure.path) ==>
              d.id in Ids(Departures(Renames(removed, added)))
    ensures a in added && a.hash == r.arrival.hash && Before(a.path, r.arrival.path) ==>
              a.id in Ids(Arrivals(Renames(removed, added)))
  {
    var renames := Renames(removed, added);
    RenamesHold(removed, added, SortedHashes(removed));
    var h := r.departure.hash.value;
    var own := RenamesFor(removed, added, h);
    var k := RenameInItsBucket(removed, added, r, h);
    RenamesOfOneHash(removed, added, h);
    RenamesWithin(renames, h);
    assert own[k] == Rename(Bucket(removed, h)[k], Bucket(added, h)[k]);
    hide Renames, Bucket, RenamesWith, Before, Ids, Departures, Arrivals;
    if d in removed && d.hash == Some(h) && Before(d.path, r.departure.path) {
      var i := PositionInBucket(removed, h, d);
      EarlierInBucket(removed, h, i, k);
      TakenDeparture(renames, own, i);
    }
    if a in added && a.hash == Some(h) && Before(a.path, r.arrival.path) {
      var i := PositionInBucket(added, h, a);
      EarlierInBucket(added, h, i, k);
      TakenArrival(renames, own, i);
    }
  }

  // ---------- the order of the report ----------

  /** By category, then by path, then by id, ascending throughout. */
  predicate StandsBefore(e: Entry, f: Entry) {
    || Before(CategoryName(e.category), CategoryName(f.category))
    || (e.category == f.category && (Before(e.path, f.path) || (e.path == f.path && AtMost(e.id, f.id))))
  }

  lemma {:induction false} NamesDiffer(c: Category, d: Category)
    ensures CategoryName(c) == CategoryName(d) ==> c == d
  {
    assert "unchanged"[0] == 'u' && "changed_content"[0] == 'c' && "renamed_candidate"[2] == 'n' && "added"[0] == 'a'
           && "removed"[2] == 'm' && "renamed_candidate"[0] == 'r' && "removed"[0] == 'r';
  }

  lemma {:induction false} EntriesInOrder(entries: seq<Entry>, i: nat, j: nat)
    requires i < j < |entries|
    ensures |Sort(entries, EntryAtMost)| == |entries|
    ensures StandsBefore(Sort(entries, EntryAtMost)[i], Sort(entries, EntryAtMost)[j])
  {
    EntryOrder();
    SortOrders(entries, EntryAtMost);
    SortKeepsMembers(entries, EntryAtMost);
    var sorted := Sort(entries, EntryAtMost);
    assert EntryAtMost(sorted[i], sorted[j]);
    NamesDiffer(sorted[i].category, sorted[j].category);
    hide Sort, AtMost, CategoryName;
  }
}
