/** The artifact part of `buildCorpusDiff`, src/corpus_diff.ts: every artifact of either snapshot is classified once. */
module CorpusDiff {
  import opened Ordering
  import opened Text
  import opened RenamePairing

  datatype Category = Unchanged | ChangedContent | RenamedCandidate | Added | Removed

  datatype Entry = Entry(category: Category, id: string, path: string, hash: Option<string>, previousPath: Option<string>,
                         previousId: Option<string>, previousHash: Option<string>)

  datatype Counts = Counts(same: nat, changed: nat, renamed: nat, added: nat, removed: nat)

  datatype Diff = Diff(counts: Counts, entries: seq<Entry>, membershipChanged: bool)

  // ---------- who stays, who comes, who goes ----------

  predicate HasId(s: seq<Artifact>, id: string) {
    exists a <- s :: a.id == id
  }

  /** The snapshot's artifacts by id; a repeated id keeps the last. */
  function ById(s: seq<Artifact>): (m: map<string, Artifact>)
    ensures forall id :: id in m <==> HasId(s, id)
    ensures forall id :: id in m ==> m[id] in s && m[id].id == id
  {
    if s == [] then map[]
    else
      var last := |s| - 1;
      assert forall id :: HasId(s, id) <==> HasId(s[..last], id) || id == s[last].id by {
        assert forall a :: a in s <==> a in s[..last] || a == s[last];
      }
      ById(s[..last])[s[last].id := s[last]]
  }

  lemma {:induction false} ByIdFinds(s: seq<Artifact>, a: Artifact)
    requires DistinctIds(s) && a in s
    ensures a.id in ById(s) && ById(s)[a.id] == a
  {
    assert HasId(s, a.id);
    hide ById;
    SameIdSame(s, ById(s)[a.id], a);
  }

  /** Those of the second snapshot whose id the first does not have. */
  function Missing(s: seq<Artifact>, other: seq<Artifact>): (r: seq<Artifact>)
    ensures forall a :: a in r <==> a in s && !HasId(other, a.id)
  {
    if s == [] then []
    else
      var last := |s| - 1;
      Missing(s[..last], other) + if HasId(other, s[last].id) then [] else [s[last]]
  }

  /** The other snapshot has the id, with the same content or not. */
  predicate Stays(a: Artifact, other: seq<Artifact>, same: bool) {
    HasId(other, a.id) && (ById(other)[a.id].hash == a.hash) == same
  }

  function Kept(s: seq<Artifact>, other: seq<Artifact>, same: bool): (r: seq<Artifact>)
    ensures forall a :: a in r <==> a in s && Stays(a, other, same)
    ensures |r| <= |s|
  {
    if s == [] then []
    else
      var last := |s| - 1;
      Kept(s[..last], other, same) + if Stays(s[last], other, same) then [s[last]] else []
  }

  lemma {:induction false} ThreeWays(s: seq<Artifact>, other: seq<Artifact>)
    ensures |Missing(s, other)| + |Kept(s, other, true)| + |Kept(s, other, false)| == |s|
  {
    if s == [] {
    } else {
      ThreeWays(s[..|s| - 1], other);
    }
  }

  lemma {:induction false} DistinctAppend(s: seq<Artifact>, a: Artifact)
    requires DistinctIds(s) && forall x :: x in s ==> x.id != a.id
    ensures DistinctIds(s + [a])
  {
    assert forall i :: 0 <= i < |s| ==> s[i] in s;
  }

  lemma {:induction false} LastIsNew(s: seq<Artifact>)
    requires DistinctIds(s) && s != []
    ensures DistinctIds(s[..|s| - 1]) && forall x :: x in s[..|s| - 1] ==> x.id != s[|s| - 1].id
  {}

  lemma {:induction false} MissingDistinct(s: seq<Artifact>, other: seq<Artifact>)
    requires DistinctIds(s)
    ensures DistinctIds(Missing(s, other))
  {
    hide HasId, DistinctIds;
    if s == [] {
      NoneDistinct();
    } else {
      LastIsNew(s);
      MissingDistinct(s[..|s| - 1], other);
      DistinctAppend(Missing(s[..|s| - 1], other), s[|s| - 1]);
      assert Missing(s[..|s| - 1], other) + [] == Missing(s[..|s| - 1], other);
    }
  }

  lemma {:induction false} NoneDistinct()
    ensures DistinctIds([])
  {}

  lemma {:induction false} KeptDistinct(s: seq<Artifact>, other: seq<Artifact>, same: bool)
    requires DistinctIds(s)
    ensures DistinctIds(Kept(s, other, same))
  {
    hide Stays, DistinctIds;
    if s == [] {
      NoneDistinct();
    } else {
      LastIsNew(s);
      KeptDistinct(s[..|s| - 1], other, same);
      DistinctAppend(Kept(s[..|s| - 1], other, same), s[|s| - 1]);
      assert Kept(s[..|s| - 1], other, same) + [] == Kept(s[..|s| - 1], other, same);
    }
  }

  // ---------- the order entries are reported in ----------

  function CategoryName(category: Category): string {
    match category
    case Unchanged => "unchanged"
    case ChangedContent => "changed_content"
    case RenamedCandidate => "renamed_candidate"
    case Added => "added"
    case Removed => "removed"
  }

  /** By category name, then path, then id. */
  predicate EntryAtMost(a: Entry, b: Entry) {
    if CategoryName(a.category) != CategoryName(b.category) then AtMost(CategoryName(a.category), CategoryName(b.category))
    else if a.path != b.path then AtMost(a.path, b.path)
    else AtMost(a.id, b.id)
  }

  lemma {:induction false} EntryOrder()
    ensures TotalPreorder(EntryAtMost)
  {
    hide AtMost, CategoryName;
    forall x, y ensures EntryAtMost(x, y) || EntryAtMost(y, x) {
      AtMostTotal(CategoryName(x.category), CategoryName(y.category));
      AtMostTotal(x.path, y.path);
      AtMostTotal(x.id, y.id);
    }
    forall x, y, z | EntryAtMost(x, y) && EntryAtMost(y, z) ensures EntryAtMost(x, z) { EntryTransitive(x, y, z); }
  }

  lemma {:induction false} EntryTransitive(x: Entry, y: Entry, z: Entry)
    requires EntryAtMost(x, y) && EntryAtMost(y, z)
    ensures EntryAtMost(x, z)
  {
    hide AtMost, CategoryName;
    var c, d, e := CategoryName(x.category), CategoryName(y.category), CategoryName(z.category);
    if c != d && d != e {
      AtMostTransitive(c, d, e);
      AtMostTotal(c, d);
    } else if c == d == e {
      if x.path != y.path && y.path != z.path {
        AtMostTransitive(x.path, y.path, z.path);
        AtMostTotal(x.path, y.path);
      } else if x.path == y.path == z.path {
        AtMostTransitive(x.id, y.id, z.id);
      }
    }
  }

  lemma {:induction false} EntryTies(x: Entry, y: Entry)
    requires EntryAtMost(x, y) && EntryAtMost(y, x)
    ensures x.id == y.id
  {
    AtMostTotal(CategoryName(x.category), CategoryName(y.category));
    AtMostTotal(x.path, y.path);
    AtMostTotal(x.id, y.id);
  }

  // ---------- the routine ----------

  function PlainEntry(category: Category, a: Artifact): Entry {
    Entry(category, a.id, a.path, a.hash, None, None, None)
  }

  function RenameEntry(r: Rename): Entry {
    Entry(RenamedCandidate, r.arrival.id, r.arrival.path, r.arrival.hash, Some(r.departure.path), Some(r.departure.id), r.departure.hash)
  }

  function KeptEntry(a: Artifact, before: Artifact): Entry {
    if before.hash == a.hash then PlainEntry(Unchanged, a)
    else Entry(ChangedContent, a.id, a.path, a.hash, None, None, before.hash)
  }

  /** The entries for artifacts present in both snapshots, in the current order. */
  function KeptEntries(current: seq<Artifact>, previous: seq<Artifact>): seq<Entry> {
    if current == [] then []
    else
      var last := |current| - 1;
      var a := current[last];
      KeptEntries(current[..last], previous) + if HasId(previous, a.id) then [KeptEntry(a, ById(previous)[a.id])] else []
  }

  function PlainEntries(category: Category, s: seq<Artifact>): (r: seq<Entry>)
    ensures |r| == |s|
  {
    seq(|s|, i requires 0 <= i < |s| => PlainEntry(category, s[i]))
  }

  function RenameEntries(renames: seq<Rename>): (r: seq<Entry>)
    ensures |r| == |renames|
  {
    seq(|renames|, i requires 0 <= i < |renames| => RenameEntry(renames[i]))
  }

  /** What one more current artifact adds to the two lists and to the two counts. */
  lemma {:induction false} OneMoreCurrent(s: seq<Artifact>, a: Artifact, previous: seq<Artifact>)
    ensures a.id !in ById(previous) ==>
      (Missing(s + [a], previous) == Missing(s, previous) + [a] && KeptEntries(s + [a], previous) == KeptEntries(s, previous)
       && |Kept(s + [a], previous, true)| == |Kept(s, previous, true)| && |Kept(s + [a], previous, false)| == |Kept(s, previous, false)|)
    ensures a.id in ById(previous) ==>
      var before := ById(previous)[a.id];
      (Missing(s + [a], previous) == Missing(s, previous)
       && KeptEntries(s + [a], previous) == KeptEntries(s, previous) + [KeptEntry(a, before)]
       && |Kept(s + [a], previous, true)| == |Kept(s, previous, true)| + (if before.hash == a.hash then 1 else 0)
       && |Kept(s + [a], previous, false)| == |Kept(s, previous, false)| + (if before.hash == a.hash then 0 else 1))
  {
    assert (s + [a])[..|s|] == s && (s + [a])[|s|] == a;
    hide HasId, ById, KeptEntry;
  }

  /** The first loop: what stays, counted and reported, and what arrives. */
  method Compare(previous: seq<Artifact>, current: seq<Artifact>)
    returns (same: nat, changed: nat, entries: seq<Entry>, arrived: seq<Artifact>)
    ensures arrived == Missing(current, previous) && entries == KeptEntries(current, previous)
    ensures same == |Kept(current, previous, true)| && changed == |Kept(current, previous, false)|
  {
    hide ById, HasId, Missing, KeptEntries, Kept;
    StartsEmpty(previous);
    same, changed, entries, arrived := 0, 0, [], [];
    var previousById, i := ById(previous), 0;
    while i < |current|
      invariant 0 <= i <= |current|
      invariant arrived == Missing(current[..i], previous) && entries == KeptEntries(current[..i], previous)
      invariant same == |Kept(current[..i], previous, true)| && changed == |Kept(current[..i], previous, false)|
    {
      var artifact := current[i];
      assert current[..i + 1] == current[..i] + [artifact];
      OneMoreCurrent(current[..i], artifact, previous);
      if artifact.id !in previousById {
        arrived := arrived + [artifact];
      } else {
        var before := previousById[artifact.id];
        if before.hash == artifact.hash { same := same + 1; } else { changed := changed + 1; }
        entries := entries + [KeptEntry(artifact, before)];
      }
      i := i + 1;
    }
    assert current[..i] == current;
  }

  lemma {:induction false} StartsEmpty(previous: seq<Artifact>)
    ensures Missing([], previous) == [] && KeptEntries([], previous) == []
    ensures Kept([], previous, true) == [] && Kept([], previous, false) == []
  {}

  method BuildDiff(previous: seq<Artifact>, current: seq<Artifact>) returns (diff: Diff)
    ensures diff.counts == CountsOf(previous, current)
    ensures diff.entries == Sort(EntriesOf(previous, current), EntryAtMost)
    ensures diff.membershipChanged
            <==> diff.counts.changed + diff.counts.renamed + diff.counts.added + diff.counts.removed > 0
  {
    hide Renames, Unpaired, Missing, Kept, KeptEntries, Sort;
    var same, changed, entries, arrived := Compare(previous, current);
    var departed := Departed(previous, current);
    var renames, removed, added := PairRenames(departed, arrived);
    entries := entries + RenameEntries(renames) + PlainEntries(Added, added) + PlainEntries(Removed, removed);
    var membershipChanged := exists e <- entries :: e.category != Unchanged;
    SomethingChanged(previous, current, renames, added, removed, entries);
    return Diff(Counts(same, changed, |renames|, |added|, |removed|), Sort(entries, EntryAtMost), membershipChanged);
  }

  lemma {:induction false} KeptEntriesChange(previous: seq<Artifact>, current: seq<Artifact>)
    ensures (exists e :: e in KeptEntries(current, previous) && e.category != Unchanged) <==> |Kept(current, previous, false)| > 0
  {
    hide ById;
    if current == [] {
    } else {
      var last := |current| - 1;
      KeptEntriesChange(previous, current[..last]);
      var rest, all := KeptEntries(current[..last], previous), KeptEntries(current, previous);
      if HasId(previous, current[last].id) {
        var e := KeptEntry(current[last], ById(previous)[current[last].id]);
        assert all == rest + [e];
        assert forall x :: x in all <==> x in rest || x == e;
      } else {
        assert all == rest;
      }
    }
  }

  lemma {:induction false} SomethingChanged(previous: seq<Artifact>, current: seq<Artifact>, renames: seq<Rename>,
                                            added: seq<Artifact>, removed: seq<Artifact>, entries: seq<Entry>)
    requires entries == KeptEntries(current, previous) + RenameEntries(renames) + PlainEntries(Added, added)
                        + PlainEntries(Removed, removed)
    ensures (exists e :: e in entries && e.category != Unchanged)
            <==> |Kept(current, previous, false)| + |renames| + |added| + |removed| > 0
  {
    KeptEntriesChange(previous, current);
    hide KeptEntries, Kept;
    if |renames| > 0 { assert RenameEntries(renames)[0] in entries; }
    if |added| > 0 { assert PlainEntries(Added, added)[0] in entries; }
    if |removed| > 0 { assert PlainEntries(Removed, removed)[0] in entries; }
  }

  method Departed(previous: seq<Artifact>, current: seq<Artifact>) returns (departed: seq<Artifact>)
    ensures departed == Missing(previous, current)
  {
    var currentById := ById(current);
    departed := [];
    var i := 0;
    while i < |previous|
      invariant 0 <= i <= |previous| && departed == Missing(previous[..i], current)
    {
      assert previous[..i + 1][..i] == previous[..i];
      if previous[i].id !in currentById { departed := departed + [previous[i]]; }
      i := i + 1;
    }
    assert previous[..i] == previous;
  }

  // ---------- what the diff comes to ----------

  /** The entries the routine reports, before they are sorted. */
  ghost function EntriesOf(previous: seq<Artifact>, current: seq<Artifact>): seq<Entry> {
    var departed, arrived := Missing(previous, current), Missing(current, previous);
    var renames := Renames(departed, arrived);
    KeptEntries(current, previous) + RenameEntries(renames)
    + PlainEntries(Added, Unpaired(arrived, Ids(Arrivals(renames)))) + PlainEntries(Removed, Unpaired(departed, Ids(Departures(renames))))
  }

  /** The counts the routine reports. */
  ghost function CountsOf(previous: seq<Artifact>, current: seq<Artifact>): Counts {
    var departed, arrived := Missing(previous, current), Missing(current, previous);
    var renames := Renames(departed, arrived);
    Counts(|Kept(current, previous, true)|, |Kept(current, previous, false)|, |renames|,
           |Unpaired(arrived, Ids(Arrivals(renames)))|, |Unpaired(departed, Ids(Departures(renames)))|)
  }

  /** The same ids are kept from both sides. */
  lemma {:induction false} KeptBothWays(previous: seq<Artifact>, current: seq<Artifact>, same: bool)
    requires DistinctIds(previous) && DistinctIds(current)
    ensures |Kept(current, previous, same)| == |Kept(previous, current, same)|
  {
    hide Kept;
    KeptIdsAgree(previous, current, same);
    KeptDistinct(current, previous, same);
    KeptDistinct(previous, current, same);
    IdsCount(Kept(current, previous, same));
    IdsCount(Kept(previous, current, same));
  }

  ghost function KeptIdSet(s: seq<Artifact>, other: seq<Artifact>, same: bool): set<string> {
    Ids(Kept(s, other, same))
  }

  lemma {:induction false} IdsCount(s: seq<Artifact>)
    requires DistinctIds(s)
    ensures |Ids(s)| == |s|
  {
    if s == [] {
    } else {
      var last := |s| - 1;
      IdsCount(s[..last]);
      assert forall a :: a in s[..last] ==> a.id != s[last].id;
      assert s == s[..last] + [s[last]];
      assert Ids(s) == Ids(s[..last]) + {s[last].id};
    }
  }

  lemma {:induction false} KeptIdsWithin(s: seq<Artifact>, other: seq<Artifact>, same: bool)
    requires DistinctIds(s) && DistinctIds(other)
    ensures KeptIdSet(s, other, same) <= KeptIdSet(other, s, same)
  {
    hide ById, Kept;
    forall id | id in KeptIdSet(s, other, same) ensures id in KeptIdSet(other, s, same) {
      var a :| a in Kept(s, other, same) && a.id == id;
      var b := ById(other)[id];
      ByIdFinds(s, a);
      ByIdFinds(other, b);
      assert HasId(s, b.id);
      assert b in Kept(other, s, same);
    }
  }

  lemma {:induction false} KeptIdsAgree(previous: seq<Artifact>, current: seq<Artifact>, same: bool)
    requires DistinctIds(previous) && DistinctIds(current)
    ensures KeptIdSet(current, previous, same) == KeptIdSet(previous, current, same)
  {
    KeptIdsWithin(previous, current, same);
    KeptIdsWithin(current, previous, same);
  }

  /** Every artifact of either snapshot is counted once: the counts add up to both sizes. */
  lemma {:induction false} CountsAddUp(previous: seq<Artifact>, current: seq<Artifact>)
    requires DistinctIds(previous) && DistinctIds(current)
    ensures var c := CountsOf(previous, current);
            && c.same + c.changed + c.renamed + c.added == |current|
            && c.same + c.changed + c.renamed + c.removed == |previous|
  {
    hide Missing, Kept, Renames, Unpaired;
    MissingDistinct(previous, current);
    MissingDistinct(current, previous);
    PairingConserves(Missing(previous, current), Missing(current, previous));
    ThreeWays(current, previous);
    ThreeWays(previous, current);
    KeptBothWays(previous, current, true);
    KeptBothWays(previous, current, false);
  }

  /** Comparing the other way round swaps additions and removals and leaves the other counts alone. */
  lemma {:induction false} CountsInvert(previous: seq<Artifact>, current: seq<Artifact>)
    requires DistinctIds(previous) && DistinctIds(current)
    ensures CountsOf(current, previous)
            == CountsOf(previous, current).(added := CountsOf(previous, current).removed, removed := CountsOf(previous, current).added)
  {
    hide Missing, Kept, Renames, Unpaired;
    CountsAddUp(previous, current);
    CountsAddUp(current, previous);
    KeptBothWays(previous, current, true);
    KeptBothWays(previous, current, false);
    SwappingInverts(Missing(previous, current), Missing(current, previous));
  }

  /** What a snapshot holds: which bytes under which identity. */
  function Membership(s: seq<Artifact>): set<(string, Option<string>)> {
    set a <- s :: (a.id, a.hash)
  }

  lemma {:induction false} NothingElse(previous: seq<Artifact>, current: seq<Artifact>)
    requires DistinctIds(previous) && DistinctIds(current)
    ensures Membership(current) <= Membership(previous) <==> |Kept(current, previous, true)| == |current|
  {
    ThreeWays(current, previous);
    if |Kept(current, previous, true)| == |current| {
      AllKept(current, previous);
      hide ById, Kept;
      forall a | a in current ensures (a.id, a.hash) in Membership(previous) {
        assert a in Kept(current, previous, true);
      }
    }
    if Membership(current) <= Membership(previous) {
      hide ById;
      forall a | a in current ensures a in Kept(current, previous, true) {
        assert (a.id, a.hash) in Membership(previous);
        var b :| b in previous && b.id == a.id && b.hash == a.hash;
        ByIdFinds(previous, b);
      }
      KeptWhole(current, previous);
    }
  }

  lemma {:induction false} AllKept(s: seq<Artifact>, other: seq<Artifact>)
    requires |Kept(s, other, true)| == |s|
    ensures Kept(s, other, true) == s
  {
    hide Stays;
    if s == [] {
    } else {
      var last := |s| - 1;
      var rest := Kept(s[..last], other, true);
      assert |rest| == last && Kept(s, other, true) == rest + [s[last]];
      AllKept(s[..last], other);
      assert s == s[..last] + [s[last]];
    }
  }

  lemma {:induction false} KeptWhole(s: seq<Artifact>, other: seq<Artifact>)
    requires forall a :: a in s ==> a in Kept(s, other, true)
    ensures |Kept(s, other, true)| == |s|
  {
    if s == [] {
    } else {
      var last := |s| - 1;
      hide Stays;
      forall a | a in s[..last] ensures a in Kept(s[..last], other, true) { assert a in s; }
      KeptWhole(s[..last], other);
      assert s[last] in s;
    }
  }

  /** Corpus-scoped results are retired exactly when the two snapshots hold different bytes under some identity. */
  lemma {:induction false} MembershipChangedIff(previous: seq<Artifact>, current: seq<Artifact>)
    requires DistinctIds(previous) && DistinctIds(current)
    ensures var c := CountsOf(previous, current);
            c.changed + c.renamed + c.added + c.removed == 0 <==> Membership(previous) == Membership(current)
  {
    CountsAddUp(previous, current);
    NothingElse(previous, current);
    NothingElse(current, previous);
    KeptBothWays(previous, current, true);
    hide Missing, Kept, Renames, Unpaired, Membership;
  }

  // ---------- the order of the artifacts ----------

  /** What an entry says about the two snapshots. */
  ghost predicate IsEntry(previous: seq<Artifact>, current: seq<Artifact>, renames: seq<Rename>, e: Entry) {
    || IsKept(previous, current, e) || IsRename(renames, e)
    || IsLeft(Added, current, previous, Ids(Arrivals(renames)), e) || IsLeft(Removed, previous, current, Ids(Departures(renames)), e)
  }

  ghost predicate IsKept(previous: seq<Artifact>, current: seq<Artifact>, e: Entry) {
    exists a :: a in current && HasId(previous, a.id) && e == KeptEntry(a, ById(previous)[a.id])
  }

  ghost predicate IsRename(renames: seq<Rename>, e: Entry) {
    exists r :: r in renames && e == RenameEntry(r)
  }

  ghost predicate IsLeft(category: Category, s: seq<Artifact>, other: seq<Artifact>, taken: set<string>, e: Entry) {
    exists a :: a in s && !HasId(other, a.id) && a.id !in taken && e == PlainEntry(category, a)
  }

  lemma {:induction false} KeptEntriesAre(previous: seq<Artifact>, current: seq<Artifact>)
    ensures forall e :: e in KeptEntries(current, previous) <==> IsKept(previous, current, e)
  {
    hide ById, HasId, KeptEntry;
    if current == [] {
    } else {
      var last := |current| - 1;
      var a, rest := current[last], KeptEntries(current[..last], previous);
      KeptEntriesAre(previous, current[..last]);
      assert forall x :: x in current <==> x in current[..last] || x == a;
      forall e ensures e in KeptEntries(current, previous) <==> IsKept(previous, current, e) {
        assert e in KeptEntries(current, previous) <==> e in rest || (HasId(previous, a.id) && e == KeptEntry(a, ById(previous)[a.id]));
      }
    }
  }

  lemma {:induction false} PlainEntriesAre(category: Category, s: seq<Artifact>, e: Entry)
    ensures e in PlainEntries(category, s) <==> exists a :: a in s && e == PlainEntry(category, a)
  {
    if a :| a in s && e == PlainEntry(category, a) {
      var i :| 0 <= i < |s| && s[i] == a;
      assert PlainEntries(category, s)[i] == e;
    }
  }

  lemma {:induction false} RenameEntriesAre(renames: seq<Rename>, e: Entry)
    ensures e in RenameEntries(renames) <==> IsRename(renames, e)
  {
    if r :| r in renames && e == RenameEntry(r) {
      var i :| 0 <= i < |renames| && renames[i] == r;
      assert RenameEntries(renames)[i] == e;
    }
  }

  lemma {:induction false} EntriesAre(previous: seq<Artifact>, current: seq<Artifact>, e: Entry)
    ensures e in EntriesOf(previous, current)
            <==> IsEntry(previous, current, Renames(Missing(previous, current), Missing(current, previous)), e)
  {
    var departed, arrived := Missing(previous, current), Missing(current, previous);
    var renames := Renames(departed, arrived);
    var added, removed := Unpaired(arrived, Ids(Arrivals(renames))), Unpaired(departed, Ids(Departures(renames)));
    KeptEntriesAre(previous, current);
    RenameEntriesAre(renames, e);
    PlainEntriesAre(Added, added, e);
    PlainEntriesAre(Removed, removed, e);
    hide KeptEntries, IsKept, RenameEntries, PlainEntries, PlainEntry, Missing, Unpaired, Renames, HasId, Ids;
  }

  predicate IdsDiffer(entries: seq<Entry>) {
    forall i, j :: 0 <= i < j < |entries| ==> entries[i].id != entries[j].id
  }

  lemma {:induction false} IdsDifferTogether(a: seq<Entry>, b: seq<Entry>)
    requires IdsDiffer(a) && IdsDiffer(b) && forall x, y :: x in a && y in b ==> x.id != y.id
    ensures IdsDiffer(a + b)
  {
    forall i, j | 0 <= i < j < |a + b| ensures (a + b)[i].id != (a + b)[j].id {
      if i < |a| <= j { assert a[i] in a && b[j - |a|] in b; }
    }
  }

  lemma {:induction false} KeptIdsDiffer(previous: seq<Artifact>, current: seq<Artifact>)
    requires DistinctIds(current)
    ensures IdsDiffer(KeptEntries(current, previous))
  {
    hide ById, HasId;
    if current == [] {
    } else {
      var last := |current| - 1;
      LastIsNew(current);
      KeptIdsDiffer(previous, current[..last]);
      KeptEntriesAre(previous, current[..last]);
      var rest := KeptEntries(current[..last], previous);
      if HasId(previous, current[last].id) {
        IdsDifferTogether(rest, [KeptEntry(current[last], ById(previous)[current[last].id])]);
      } else {
        assert rest + [] == rest;
      }
    }
  }

  lemma {:induction false} UnpairedDistinct(s: seq<Artifact>, taken: set<string>)
    requires DistinctIds(s)
    ensures DistinctIds(Unpaired(s, taken))
  {
    hide DistinctIds;
    if s == [] {
      NoneDistinct();
    } else {
      var last := |s| - 1;
      LastIsNew(s);
      UnpairedDistinct(s[..last], taken);
      DistinctAppend(Unpaired(s[..last], taken), s[last]);
      assert Unpaired(s[..last], taken) + [] == Unpaired(s[..last], taken);
    }
  }

  lemma {:induction false} RenameIdsDiffer(removed: seq<Artifact>, added: seq<Artifact>)
    requires DistinctIds(removed) && DistinctIds(added)
    ensures IdsDiffer(RenameEntries(Renames(removed, added)))
    ensures forall r :: r in Renames(removed, added) ==> r.departure in removed && r.arrival in added
  {
    var renames := Renames(removed, added);
    PairingConserves(removed, added);
    RenamesHold(removed, added, SortedHashes(removed));
    hide Renames, Ids, Unpaired;
    forall i, j | 0 <= i < j < |renames| ensures renames[i].arrival.id != renames[j].arrival.id {
      assert Arrivals(renames)[i] != Arrivals(renames)[j];
      assert renames[i] in renames && renames[j] in renames;
      if renames[i].arrival.id == renames[j].arrival.id { SameIdSame(added, renames[i].arrival, renames[j].arrival); }
    }
  }

  lemma {:induction false} ArrivalTaken(renames: seq<Rename>, e: Entry)
    requires IsRename(renames, e)
    ensures exists r :: r in renames && r.arrival.id == e.id && e.id in Ids(Arrivals(renames))
  {
    var r :| r in renames && e == RenameEntry(r);
    var i :| 0 <= i < |renames| && renames[i] == r;
    assert Arrivals(renames)[i] == r.arrival && r.arrival in Arrivals(renames);
  }

  lemma {:induction false} PartsApart(previous: seq<Artifact>, current: seq<Artifact>, kept: seq<Entry>, renamed: seq<Entry>,
                                      added: seq<Entry>, removed: seq<Entry>, taken: set<string>)
    requires IdsDiffer(kept) && IdsDiffer(renamed) && IdsDiffer(added) && IdsDiffer(removed)
    requires forall e :: e in kept ==> HasId(current, e.id) && HasId(previous, e.id)
    requires forall e :: e in renamed ==> HasId(current, e.id) && !HasId(previous, e.id) && e.id in taken
    requires forall e :: e in added ==> HasId(current, e.id) && !HasId(previous, e.id) && e.id !in taken
    requires forall e :: e in removed ==> !HasId(current, e.id)
    ensures IdsDiffer(kept + renamed + added + removed)
  {
    hide IdsDiffer, HasId;
    IdsDifferTogether(kept, renamed);
    IdsDifferTogether(kept + renamed, added);
    IdsDifferTogether(kept + renamed + added, removed);
  }

  lemma {:induction false} KeptIsInBoth(previous: seq<Artifact>, current: seq<Artifact>, e: Entry)
    requires e in KeptEntries(current, previous)
    ensures HasId(current, e.id) && HasId(previous, e.id)
  {
    hide KeptEntries, ById;
    KeptEntriesAre(previous, current);
  }

  lemma {:induction false} RenamedIsMissing(previous: seq<Artifact>, current: seq<Artifact>, e: Entry)
    requires DistinctIds(previous) && DistinctIds(current)
    requires e in RenameEntries(Renames(Missing(previous, current), Missing(current, previous)))
    ensures HasId(current, e.id) && !HasId(previous, e.id)
    ensures e.id in Ids(Arrivals(Renames(Missing(previous, current), Missing(current, previous))))
  {
    hide Missing, Renames, RenameEntries, Arrivals, Ids, DistinctIds, IdsDiffer;
    var departed, arrived := Missing(previous, current), Missing(current, previous);
    MissingDistinct(previous, current);
    MissingDistinct(current, previous);
    RenameIdsDiffer(departed, arrived);
    RenameEntriesAre(Renames(departed, arrived), e);
    ArrivalTaken(Renames(departed, arrived), e);
  }

  lemma {:induction false} LeftIsMissing(category: Category, s: seq<Artifact>, other: seq<Artifact>, taken: set<string>, e: Entry)
    requires e in PlainEntries(category, Unpaired(Missing(s, other), taken))
    ensures HasId(s, e.id) && !HasId(other, e.id) && e.id !in taken
  {
    hide Missing, Unpaired, PlainEntries;
    PlainEntriesAre(category, Unpaired(Missing(s, other), taken), e);
  }

  lemma {:induction false} PlainIdsDiffer(category: Category, s: seq<Artifact>)
    requires DistinctIds(s)
    ensures IdsDiffer(PlainEntries(category, s))
  {
    var entries := PlainEntries(category, s);
    forall i, j | 0 <= i < j < |entries| ensures entries[i].id != entries[j].id {
      assert entries[i].id == s[i].id && entries[j].id == s[j].id;
    }
  }

  /** No two entries are about one artifact. */
  lemma {:induction false} EntryIdsDiffer(previous: seq<Artifact>, current: seq<Artifact>)
    requires DistinctIds(previous) && DistinctIds(current)
    ensures IdsDiffer(EntriesOf(previous, current))
  {
    hide KeptEntries, RenameEntries, PlainEntries, Missing, Renames, Unpaired, HasId, Arrivals, Departures, Ids, DistinctIds, IdsDiffer;
    var departed, arrived := Missing(previous, current), Missing(current, previous);
    MissingDistinct(previous, current);
    MissingDistinct(current, previous);
    var renames := Renames(departed, arrived);
    var taken, gone := Ids(Arrivals(renames)), Ids(Departures(renames));
    KeptIdsDiffer(previous, current);
    RenameIdsDiffer(departed, arrived);
    UnpairedDistinct(arrived, taken);
    UnpairedDistinct(departed, gone);
    PlainIdsDiffer(Added, Unpaired(arrived, taken));
    PlainIdsDiffer(Removed, Unpaired(departed, gone));
    forall e | e in KeptEntries(current, previous) ensures HasId(current, e.id) && HasId(previous, e.id) {
      KeptIsInBoth(previous, current, e);
    }
    forall e | e in RenameEntries(renames) ensures HasId(current, e.id) && !HasId(previous, e.id) && e.id in taken {
      RenamedIsMissing(previous, current, e);
    }
    forall e | e in PlainEntries(Added, Unpaired(arrived, taken))
      ensures HasId(current, e.id) && !HasId(previous, e.id) && e.id !in taken
    {
      LeftIsMissing(Added, current, previous, taken, e);
    }
    forall e | e in PlainEntries(Removed, Unpaired(departed, gone)) ensures !HasId(current, e.id) {
      LeftIsMissing(Removed, previous, current, gone, e);
    }
    PartsApart(previous, current, KeptEntries(current, previous), RenameEntries(renames),
               PlainEntries(Added, Unpaired(arrived, taken)), PlainEntries(Removed, Unpaired(departed, gone)), taken);
  }

  lemma {:induction false} SameSnapshot(s: seq<Artifact>, t: seq<Artifact>)
    requires DistinctIds(s) && DistinctIds(t) && SameMembers(s, t)
    ensures forall id :: HasId(s, id) == HasId(t, id)
    ensures ById(s) == ById(t)
  {
    assert forall id :: HasId(s, id) == HasId(t, id);
    forall id | HasId(s, id) ensures ById(s)[id] == ById(t)[id] {
      hide ById;
      ByIdFinds(t, ById(s)[id]);
    }
  }

  lemma {:induction false} SameMissing(s: seq<Artifact>, other: seq<Artifact>, s': seq<Artifact>, other': seq<Artifact>)
    requires SameMembers(s, s') && forall id :: HasId(other, id) == HasId(other', id)
    ensures SameMembers(Missing(s, other), Missing(s', other'))
  {
    hide HasId;
  }

  lemma {:induction false} SameRenames(previous: seq<Artifact>, current: seq<Artifact>, previous': seq<Artifact>, current': seq<Artifact>)
    requires DistinctIds(previous) && DistinctIds(previous') && SameMembers(previous, previous')
    requires DistinctIds(current) && DistinctIds(current') && SameMembers(current, current')
    requires ApartWithinHash(Missing(previous, current)) && ApartWithinHash(Missing(current, previous))
    ensures Renames(Missing(previous, current), Missing(current, previous))
            == Renames(Missing(previous', current'), Missing(current', previous'))
  {
    hide HasId, ById, Missing, Renames, DistinctIds, ApartWithinHash, SameMembers;
    SameSnapshot(previous, previous');
    SameSnapshot(current, current');
    SameMissing(previous, current, previous', current');
    SameMissing(current, previous, current', previous');
    MissingDistinct(previous, current);
    MissingDistinct(current, previous);
    MissingDistinct(previous', current');
    MissingDistinct(current', previous');
    PairingIgnoresOrder(Missing(previous, current), Missing(current, previous), Missing(previous', current'), Missing(current', previous'));
  }

  lemma {:induction false} SameEntries(previous: seq<Artifact>, current: seq<Artifact>, previous': seq<Artifact>, current': seq<Artifact>,
                                       renames: seq<Rename>, e: Entry)
    requires SameMembers(previous, previous') && SameMembers(current, current')
    requires (forall id :: HasId(previous, id) == HasId(previous', id)) && (forall id :: HasId(current, id) == HasId(current', id))
    requires ById(previous) == ById(previous')
    ensures IsEntry(previous, current, renames, e) <==> IsEntry(previous', current', renames, e)
  {
    hide HasId, ById, KeptEntry, PlainEntry, RenameEntry, Ids, Arrivals, Departures, IsRename;
    assert IsKept(previous, current, e) <==> IsKept(previous', current', e);
    assert forall taken :: IsLeft(Added, current, previous, taken, e) <==> IsLeft(Added, current', previous', taken, e);
    assert forall taken :: IsLeft(Removed, previous, current, taken, e) <==> IsLeft(Removed, previous', current', taken, e);
  }

  /** The report of a diff depends on which artifacts the snapshots hold, not on the order they are listed in. */
  lemma {:induction false} DiffIgnoresOrder(previous: seq<Artifact>, current: seq<Artifact>, previous': seq<Artifact>, current': seq<Artifact>)
    requires DistinctIds(previous) && DistinctIds(previous') && SameMembers(previous, previous')
    requires DistinctIds(current) && DistinctIds(current') && SameMembers(current, current')
    requires ApartWithinHash(Missing(previous, current)) && ApartWithinHash(Missing(current, previous))
    ensures Sort(EntriesOf(previous, current), EntryAtMost) == Sort(EntriesOf(previous', current'), EntryAtMost)
  {
    hide HasId, ById, Missing, Renames, Sort, EntriesOf, DistinctIds, ApartWithinHash, EntryAtMost, IsEntry, SameMembers, IdsDiffer;
    SameSnapshot(previous, previous');
    SameSnapshot(current, current');
    SameRenames(previous, current, previous', current');
    var renames := Renames(Missing(previous, current), Missing(current, previous));
    var entries, others := EntriesOf(previous, current), EntriesOf(previous', current');
    forall e ensures e in entries <==> e in others {
      EntriesAre(previous, current, e);
      EntriesAre(previous', current', e);
      SameEntries(previous, current, previous', current', renames, e);
    }
    EntryIdsDiffer(previous, current);
    EntryIdsDiffer(previous', current');
    SortedAlike(entries, others);
  }

  lemma {:induction false} SortedAlike(entries: seq<Entry>, others: seq<Entry>)
    requires IdsDiffer(entries) && IdsDiffer(others) && forall e :: e in entries <==> e in others
    ensures Sort(entries, EntryAtMost) == Sort(others, EntryAtMost)
  {
    EntryOrder();
    forall x, y | x in entries && y in entries && EntryAtMost(x, y) && EntryAtMost(y, x) ensures x == y {
      EntryTies(x, y);
      hide EntryAtMost;
      var i :| 0 <= i < |entries| && entries[i] == x;
      var j :| 0 <= j < |entries| && entries[j] == y;
    }
    hide Sort, EntryAtMost;
    assert Distinct(entries) && Distinct(others);
    SortIsCanonical(EntryAtMost, entries, others);
  }
}
