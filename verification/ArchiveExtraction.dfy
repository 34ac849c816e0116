/**
 What admission is for: an admitted archive can be written out faithfully, in any order, on a
 filesystem that merges names by the collision fold; and its verdict does not depend on the order
 of the central directory.
 */
module ArchiveExtraction {
  import Ordering
  import opened Text
  import opened MemberPaths
  import opened ArchivePreflight

  // ---------- a filesystem that merges names ----------

  datatype Node = FileNode(content: string) | DirectoryNode

  /** What stands where; a place is a list of folded names. */
  type Disk = map<seq<string>, Node>

  function Place(fold: Fold, e: Entry): (place: seq<string>)
    ensures place != []
  {
    KeySegments(fold, PathOf(e))
  }

  /** `mkdir -p` of the first `depth` names; it fails on a file. */
  function MakeDirectories(disk: Disk, place: seq<string>, depth: nat): Option<Disk>
    requires depth <= |place|
  {
    if depth == 0 then Some(disk)
    else match MakeDirectories(disk, place, depth - 1)
      case None => None
      case Some(d) =>
        if place[..depth] !in d then Some(d[place[..depth] := DirectoryNode])
        else if d[place[..depth]].DirectoryNode? then Some(d) else None
  }

  /** Write one entry: its directories, then the directory or the file itself. */
  function Put(disk: Disk, place: seq<string>, e: Entry, content: string): Option<Disk>
    requires place != []
  {
    if !e.kind.File? then MakeDirectories(disk, place, |place|)
    else match MakeDirectories(disk, place, |place| - 1)
      case None => None
      case Some(d) => if place in d && d[place].DirectoryNode? then None else Some(d[place := FileNode(content)])
  }

  predicate InRange(ops: seq<nat>, entries: seq<Entry>) {
    forall k :: 0 <= k < |ops| ==> ops[k] < |entries|
  }

  /** Write the entries `ops` names, one after the other. */
  function Extract(fold: Fold, entries: seq<Entry>, contents: seq<string>, ops: seq<nat>): Option<Disk>
    requires |contents| == |entries| && InRange(ops, entries)
  {
    if ops == [] then Some(map[])
    else
      var last := |ops| - 1;
      match Extract(fold, entries, contents, ops[..last])
      case None => None
      case Some(disk) => Put(disk, Place(fold, entries[ops[last]]), entries[ops[last]], contents[ops[last]])
  }

  /** Every entry written stands at its place: a directory as one, a file with its own bytes. */
  ghost predicate Holds(fold: Fold, entries: seq<Entry>, contents: seq<string>, i: nat, disk: Disk)
    requires |contents| == |entries| && i < |entries|
  {
    && Place(fold, entries[i]) in disk
    && disk[Place(fold, entries[i])] == if entries[i].kind.File? then FileNode(contents[i]) else DirectoryNode
  }

  ghost predicate FaithfulRun(fold: Fold, entries: seq<Entry>, contents: seq<string>, ops: seq<nat>)
    requires |contents| == |entries| && InRange(ops, entries)
  {
    && Extract(fold, entries, contents, ops).Some?
    && forall k :: 0 <= k < |ops| ==> Holds(fold, entries, contents, ops[k], Extract(fold, entries, contents, ops).value)
  }

  /** Whatever the members hold and in whatever order they are written. */
  ghost predicate Faithful(fold: Fold, entries: seq<Entry>) {
    forall contents: seq<string>, ops: seq<nat> :: |contents| == |entries| && InRange(ops, entries) ==>
      FaithfulRun(fold, entries, contents, ops)
  }

  /** No file stands at, or above, the place of another entry. */
  ghost predicate Materializable(fold: Fold, entries: seq<Entry>) {
    forall i, j :: 0 <= i < |entries| && 0 <= j < |entries| && i != j && entries[i].kind.File? ==>
      !(Place(fold, entries[i]) <= Place(fold, entries[j]))
  }

  // ---------- writing a materializable archive ----------

  /** A directory node stands at the place of a written directory, or above some written entry. */
  ghost predicate Needed(fold: Fold, entries: seq<Entry>, ops: seq<nat>, place: seq<string>, k: nat)
    requires InRange(ops, entries) && k < |ops|
  {
    var e := entries[ops[k]];
    place <= Place(fold, e) && (e.kind.File? ==> place != Place(fold, e))
  }

  /** Every file node on the disk is a written file with its own bytes. */
  ghost predicate FilesAccounted(fold: Fold, entries: seq<Entry>, contents: seq<string>, ops: seq<nat>, disk: Disk)
    requires |contents| == |entries| && InRange(ops, entries)
  {
    forall p :: p in disk && disk[p].FileNode? ==>
      exists k :: 0 <= k < |ops| && entries[ops[k]].kind.File? && p == Place(fold, entries[ops[k]])
                  && disk[p].content == contents[ops[k]]
  }

  ghost predicate Accounted(fold: Fold, entries: seq<Entry>, contents: seq<string>, ops: seq<nat>, disk: Disk)
    requires |contents| == |entries| && InRange(ops, entries)
  {
    && FilesAccounted(fold, entries, contents, ops, disk)
    && (forall p :: p in disk && disk[p].DirectoryNode? ==> exists k :: 0 <= k < |ops| && Needed(fold, entries, ops, p, k))
  }

  /** Only directories are added, and only along the way. */
  lemma {:induction false} DirectoriesMade(disk: Disk, place: seq<string>, depth: nat)
    requires depth <= |place|
    requires forall k :: 1 <= k <= depth && place[..k] in disk ==> disk[place[..k]].DirectoryNode?
    ensures var made := MakeDirectories(disk, place, depth);
            && made.Some?
            && (forall k :: 1 <= k <= depth ==> place[..k] in made.value && made.value[place[..k]].DirectoryNode?)
            && (forall p :: p in disk ==> p in made.value && made.value[p] == disk[p])
            && (forall p :: p in made.value && p !in disk ==>
                  made.value[p].DirectoryNode? && p <= place && 1 <= |p| <= depth)
  {
    if depth == 0 {
    } else {
      DirectoriesMade(disk, place, depth - 1);
    }
  }

  lemma {:induction false} PlacesFree(fold: Fold, entries: seq<Entry>, contents: seq<string>, ops: seq<nat>, disk: Disk, i: nat)
    requires |contents| == |entries| && InRange(ops, entries) && i < |entries| && Materializable(fold, entries)
    requires Accounted(fold, entries, contents, ops, disk)
    ensures forall p :: p in disk && disk[p].FileNode? && p <= Place(fold, entries[i]) ==>
              entries[i].kind.File? && p == Place(fold, entries[i])
    ensures entries[i].kind.File? && Place(fold, entries[i]) in disk ==> disk[Place(fold, entries[i])].FileNode?
  {
    hide Place;
  }

  ghost predicate PutDone(before: Disk, after: Disk, place: seq<string>, e: Entry, content: string) {
    && place in after && after[place] == (if e.kind.File? then FileNode(content) else DirectoryNode)
    && (forall p :: p in before && p != place ==> p in after && after[p] == before[p])
    && (forall p :: p in after && p !in before && p != place ==> after[p].DirectoryNode? && p <= place)
  }

  lemma {:induction false} PutWorks(disk: Disk, place: seq<string>, e: Entry, content: string)
    requires place != []
    requires forall p :: p in disk && disk[p].FileNode? && p <= place ==> e.kind.File? && p == place
    requires e.kind.File? && place in disk ==> disk[place].FileNode?
    ensures Put(disk, place, e, content).Some? && PutDone(disk, Put(disk, place, e, content).value, place, e, content)
  {
    DirectoriesMade(disk, place, if e.kind.File? then |place| - 1 else |place|);
    assert place[..|place|] == place;
  }

  lemma {:induction false} StillNeeded(fold: Fold, entries: seq<Entry>, ops: seq<nat>, p: seq<string>, k: nat)
    requires InRange(ops, entries) && k < |ops| - 1 && Needed(fold, entries, ops[..|ops| - 1], p, k)
    ensures Needed(fold, entries, ops, p, k)
  {}

  lemma {:induction false} FilesAfter(fold: Fold, entries: seq<Entry>, contents: seq<string>, ops: seq<nat>, before: Disk, after: Disk)
    requires |contents| == |entries| && InRange(ops, entries) && ops != []
    requires FilesAccounted(fold, entries, contents, ops[..|ops| - 1], before)
    requires var i := ops[|ops| - 1]; PutDone(before, after, Place(fold, entries[i]), entries[i], contents[i])
    ensures FilesAccounted(fold, entries, contents, ops, after)
  {
    hide Place;
    var last := |ops| - 1;
    forall p | p in after && after[p].FileNode?
      ensures exists k :: 0 <= k < |ops| && entries[ops[k]].kind.File? && p == Place(fold, entries[ops[k]])
                          && after[p].content == contents[ops[k]]
    {
      if p == Place(fold, entries[ops[last]]) {
        assert entries[ops[last]].kind.File?;
      } else {
        var k :| 0 <= k < last && entries[ops[..last][k]].kind.File? && p == Place(fold, entries[ops[..last][k]])
                 && before[p].content == contents[ops[..last][k]];
        assert ops[..last][k] == ops[k];
      }
    }
  }

  lemma {:induction false} AccountedAfter(fold: Fold, entries: seq<Entry>, contents: seq<string>, ops: seq<nat>, before: Disk,
                                          after: Disk)
    requires |contents| == |entries| && InRange(ops, entries) && ops != []
    requires Accounted(fold, entries, contents, ops[..|ops| - 1], before)
    requires var i := ops[|ops| - 1]; PutDone(before, after, Place(fold, entries[i]), entries[i], contents[i])
    ensures Accounted(fold, entries, contents, ops, after)
  {
    hide Place, FilesAccounted;
    FilesAfter(fold, entries, contents, ops, before, after);
    var last := |ops| - 1;
    forall p | p in after && after[p].DirectoryNode? ensures exists k :: 0 <= k < |ops| && Needed(fold, entries, ops, p, k) {
      if p in before && p != Place(fold, entries[ops[last]]) {
        var k :| 0 <= k < last && Needed(fold, entries, ops[..last], p, k);
        StillNeeded(fold, entries, ops, p, k);
      } else {
        assert Needed(fold, entries, ops, p, last);
      }
    }
  }

  lemma {:induction false} PutOne(fold: Fold, entries: seq<Entry>, contents: seq<string>, ops: seq<nat>, disk: Disk)
    requires |contents| == |entries| && InRange(ops, entries) && ops != [] && Materializable(fold, entries)
    requires Accounted(fold, entries, contents, ops[..|ops| - 1], disk)
    ensures var i := ops[|ops| - 1];
            var after := Put(disk, Place(fold, entries[i]), entries[i], contents[i]);
            && after.Some? && Accounted(fold, entries, contents, ops, after.value)
            && PutDone(disk, after.value, Place(fold, entries[i]), entries[i], contents[i])
  {
    var last := |ops| - 1;
    var i := ops[last];
    hide Accounted, Place, Materializable, PutDone, Put;
    PlacesFree(fold, entries, contents, ops[..last], disk, i);
    PutWorks(disk, Place(fold, entries[i]), entries[i], contents[i]);
    AccountedAfter(fold, entries, contents, ops, disk, Put(disk, Place(fold, entries[i]), entries[i], contents[i]).value);
  }

  /** Two entries that are not the same one and have the same place are both directories. */
  lemma {:induction false} SamePlace(fold: Fold, entries: seq<Entry>, contents: seq<string>, i: nat, j: nat, before: Disk, after: Disk)
    requires |contents| == |entries| && i < |entries| && j < |entries| && Materializable(fold, entries)
    requires Holds(fold, entries, contents, i, before)
    requires PutDone(before, after, Place(fold, entries[j]), entries[j], contents[j])
    ensures Holds(fold, entries, contents, i, after)
  {
    hide Place;
  }

  /** Any order of writing a materializable archive is faithful. */
  lemma {:induction false} MaterializableIsFaithful(fold: Fold, entries: seq<Entry>, contents: seq<string>, ops: seq<nat>)
    requires |contents| == |entries| && InRange(ops, entries) && Materializable(fold, entries)
    ensures FaithfulRun(fold, entries, contents, ops)
    ensures Accounted(fold, entries, contents, ops, Extract(fold, entries, contents, ops).value)
    decreases |ops|
  {
    hide Place, Put, Materializable, PutDone, Holds, Needed;
    if ops == [] {
    } else {
      var last := |ops| - 1;
      MaterializableIsFaithful(fold, entries, contents, ops[..last]);
      hide Accounted;
      var before := Extract(fold, entries, contents, ops[..last]).value;
      PutOne(fold, entries, contents, ops, before);
      var after := Extract(fold, entries, contents, ops).value;
      forall k | 0 <= k < |ops| ensures Holds(fold, entries, contents, ops[k], after) {
        if k < last {
          assert ops[..last][k] == ops[k];
          SamePlace(fold, entries, contents, ops[k], ops[last], before, after);
        } else {
          PutHolds(fold, entries, contents, ops[last], before, after);
        }
      }
    }
  }

  lemma {:induction false} PutHolds(fold: Fold, entries: seq<Entry>, contents: seq<string>, i: nat, before: Disk, after: Disk)
    requires |contents| == |entries| && i < |entries|
    requires PutDone(before, after, Place(fold, entries[i]), entries[i], contents[i])
    ensures Holds(fold, entries, contents, i, after)
  {}

  // ---------- admission is enough, and the rule is needed ----------

  /** No two directory entries share a place. */
  ghost predicate DirectoriesApart(fold: Fold, entries: seq<Entry>) {
    forall i, j :: 0 <= i < j < |entries| && !entries[i].kind.File? && !entries[j].kind.File? ==>
      Place(fold, entries[i]) != Place(fold, entries[j])
  }

  /** What admission asks of the keys is what extraction needs, and that no directory is listed twice. */
  lemma {:induction false} KeyRulesIffMaterializable(fold: Fold, entries: seq<Entry>)
    ensures Distinct(fold, entries) && NoFileAbove(fold, entries)
            <==> Materializable(fold, entries) && DirectoriesApart(fold, entries)
  {
    hide KeySegments, PathOf;
    if Distinct(fold, entries) && NoFileAbove(fold, entries) {
      forall i, j | 0 <= i < |entries| && 0 <= j < |entries| && i != j && entries[i].kind.File?
        ensures !(Place(fold, entries[i]) <= Place(fold, entries[j]))
      {
        assert KeySegments(fold, PathOf(entries[i])) != KeySegments(fold, PathOf(entries[j])) by {
          if i < j { } else { assert j < i; }
        }
      }
    }
    if Materializable(fold, entries) && DirectoriesApart(fold, entries) {
      forall i, j | 0 <= i < j < |entries| ensures Place(fold, entries[i]) != Place(fold, entries[j]) {
        assert entries[i].kind.File? ==> !(Place(fold, entries[i]) <= Place(fold, entries[j]));
        assert entries[j].kind.File? ==> !(Place(fold, entries[j]) <= Place(fold, entries[i]));
      }
      forall i, j | 0 <= i < |entries| && 0 <= j < |entries| && entries[i].kind.File?
        ensures !(Place(fold, entries[i]) < Place(fold, entries[j]))
      {
        assert i != j ==> !(Place(fold, entries[i]) <= Place(fold, entries[j]));
      }
    }
  }

  /** An admitted archive, written in any order, ends with every entry at its place and inside the root. */
  lemma {:induction false} AdmittedIsFaithful(fold: Fold, input: Input, contents: seq<string>, ops: seq<nat>)
    requires Admissible(fold, input) && |contents| == |input.entries| && InRange(ops, input.entries)
    ensures FaithfulRun(fold, input.entries, contents, ops)
    ensures Accounted(fold, input.entries, contents, ops, Extract(fold, input.entries, contents, ops).value)
    ensures forall i :: 0 <= i < |input.entries| ==> Inside(PathOf(input.entries[i]))
  {
    KeyRulesIffMaterializable(fold, input.entries);
    MaterializableIsFaithful(fold, input.entries, contents, ops);
    hide FaithfulRun, Accounted, Inside, CanonicalMemberPath, SplitOn, Slashes, StartsWith, Distinct, NoFileAbove;
    forall i | 0 <= i < |input.entries| ensures Inside(PathOf(input.entries[i])) {
      assert EntryClean(input.entries[i], input.policy);
      SafeIsInside(input.entries[i].name);
    }
  }

  lemma {:induction false} MakingKeeps(disk: Disk, place: seq<string>, depth: nat)
    requires depth <= |place|
    ensures var made := MakeDirectories(disk, place, depth);
            made.Some? ==> forall p :: p in disk ==> p in made.value && made.value[p] == disk[p]
  {
    if depth == 0 {
    } else {
      MakingKeeps(disk, place, depth - 1);
    }
  }

  lemma {:induction false} FileBlocks(disk: Disk, place: seq<string>, depth: nat, k: nat)
    requires 1 <= k <= depth <= |place| && place[..k] in disk && disk[place[..k]].FileNode?
    ensures MakeDirectories(disk, place, depth).None?
  {
    if k < depth { FileBlocks(disk, place, depth - 1, k); } else { MakingKeeps(disk, place, depth - 1); }
  }

  lemma {:induction false} SecondFails(fold: Fold, entries: seq<Entry>, contents: seq<string>, i: nat, j: nat, disk: Disk)
    requires |contents| == |entries| && i < |entries| && j < |entries| && entries[i].kind.File?
    requires Place(fold, entries[i]) <= Place(fold, entries[j]) && contents[i] != contents[j]
    requires Holds(fold, entries, contents, i, disk)
    ensures var after := Put(disk, Place(fold, entries[j]), entries[j], contents[j]);
            after.None? || !Holds(fold, entries, contents, i, after.value)
  {
    var above, place := Place(fold, entries[i]), Place(fold, entries[j]);
    assert place[..|above|] == above;
    hide Place;
    if above != place || !entries[j].kind.File? {
      FileBlocks(disk, place, if entries[j].kind.File? then |place| - 1 else |place|, |above|);
    }
  }

  /** The collision and conflict rules are needed: without them some order of writing loses a member. */
  lemma {:induction false} OneOrderFails(fold: Fold, entries: seq<Entry>, i: nat, j: nat)
    requires i < |entries| && j < |entries| && i != j && entries[i].kind.File?
    requires Place(fold, entries[i]) <= Place(fold, entries[j])
    ensures !Faithful(fold, entries)
  {
    var contents := seq(|entries|, k => if k == i then "a" else "");
    var first, ops: seq<nat> := [i], [i, j];
    hide Place, Put, Holds;
    assert ops[..1] == first && first[..0] == [];
    if FaithfulRun(fold, entries, contents, first) {
      var disk := Extract(fold, entries, contents, first).value;
      assert Holds(fold, entries, contents, first[0], disk);
      SecondFails(fold, entries, contents, i, j, disk);
      LostIsNotFaithful(fold, entries, contents, ops, 0);
    }
  }

  lemma {:induction false} LostIsNotFaithful(fold: Fold, entries: seq<Entry>, contents: seq<string>, ops: seq<nat>, k: nat)
    requires |contents| == |entries| && InRange(ops, entries) && k < |ops|
    requires var after := Extract(fold, entries, contents, ops);
             after.Some? ==> !Holds(fold, entries, contents, ops[k], after.value)
    ensures !FaithfulRun(fold, entries, contents, ops)
  {
    hide Holds, Extract;
  }

  /** Writing is faithful whatever the order and the bytes exactly when no file stands at or above another place. */
  lemma {:induction false} FaithfulIffMaterializable(fold: Fold, entries: seq<Entry>)
    ensures Faithful(fold, entries) <==> Materializable(fold, entries)
  {
    hide FaithfulRun, Place, Accounted;
    if Materializable(fold, entries) {
      forall contents: seq<string>, ops: seq<nat> | |contents| == |entries| && InRange(ops, entries)
        ensures FaithfulRun(fold, entries, contents, ops)
      {
        MaterializableIsFaithful(fold, entries, contents, ops);
      }
    } else {
      var i, j :| 0 <= i < |entries| && 0 <= j < |entries| && i != j && entries[i].kind.File?
                  && Place(fold, entries[i]) <= Place(fold, entries[j]);
      OneOrderFails(fold, entries, i, j);
    }
  }

  /** Depth, count, size and ratio within bounds, and every entry clean by itself. */
  predicate WithinBounds(input: Input) {
    && input.depth <= input.policy.maxNestedDepth && |input.entries| <= input.policy.maxMemberCount
    && AllClean(input.entries, input.policy)
    && Total(input.entries) <= input.policy.maxTotal
    && WithinRatio(Total(input.entries), input.archiveBytes, input.policy.maxRatio)
  }

  /** Admission, said of extraction: every order and all bytes survive, and no directory is listed twice. */
  lemma {:induction false} AdmissibleIffFaithful(fold: Fold, input: Input)
    ensures Admissible(fold, input)
            <==> WithinBounds(input) && Faithful(fold, input.entries) && DirectoriesApart(fold, input.entries)
  {
    hide AllClean, Total, WithinRatio, Distinct, NoFileAbove, Materializable, DirectoriesApart, Faithful;
    KeyRulesIffMaterializable(fold, input.entries);
    FaithfulIffMaterializable(fold, input.entries);
  }

  function DirectoryEntry(name: string): Entry {
    Entry(name, Directory, false, COMPRESSION_STORED, 0, 0)
  }

  lemma {:induction false} PlainName(name: string, maxPathLength: nat)
    requires 0 < |name| <= 4 && |name| <= maxPathLength && forall i :: 0 <= i < |name| ==> 'A' <= name[i] <= 'z' && name[i] != '\\'
    ensures CanonicalMemberPath(name) == name && SplitOn(name, '/') == [name] && PathSafe(name, maxPathLength)
  {
    var steps := [name];
    assert name != "." && name != ".." by { assert name[0] != '.'; }
    assert HoldsNone(steps, '/') && HoldsNone(steps, '\\');
    assert Join(steps, "/") == steps[0];
    SplitJoined(steps, '/');
    RelativeAgain(steps);
    SlashesOnly(name);
    UnitsOf(name);
    hide SplitOn, CanonicalMemberPath, UnitLength, ByteLength, Slashes;
  }

  lemma {:induction false} UnitsOf(name: string)
    requires forall i :: 0 <= i < |name| ==> 'A' <= name[i] <= 'z'
    ensures UnitLength(name) == ByteLength(name) == |name|
  {
    if name == [] {
    } else {
      UnitsOf(name[1..]);
    }
  }

  lemma {:induction false} PlainDirectory(fold: Fold, name: string, policy: Policy)
    requires 0 < |name| <= 4 <= policy.maxPathLength && forall i :: 0 <= i < |name| ==> 'A' <= name[i] <= 'z' && name[i] != '\\'
    ensures EntryClean(DirectoryEntry(name), policy) && Place(fold, DirectoryEntry(name)) == [fold(name)]
  {
    PlainName(name, policy.maxPathLength);
    hide PathSafe, CanonicalMemberPath, SplitOn;
  }

  /** Two directory entries under one key can be written in any order, and are held all the same. */
  lemma {:induction false} TwoDirectoriesAreHeld(fold: Fold, policy: Policy)
    requires fold("Docs") == fold("docs") && policy.maxPathLength >= 4
    ensures var entries := [DirectoryEntry("Docs"), DirectoryEntry("docs")];
            AllClean(entries, policy) && Faithful(fold, entries) && !Distinct(fold, entries)
  {
    hide EntryClean, KeySegments, PathOf, Faithful;
    var entries := [DirectoryEntry("Docs"), DirectoryEntry("docs")];
    PlainDirectory(fold, "Docs", policy);
    PlainDirectory(fold, "docs", policy);
    FaithfulIffMaterializable(fold, entries);
    assert Place(fold, entries[0]) == Place(fold, entries[1]);
  }

  // ---------- the verdict ignores the order ----------

  /** Distinctness, said of the entries as a multiset. */
  ghost predicate DistinctEntries(fold: Fold, entries: seq<Entry>) {
    && (forall e :: multiset(entries)[e] <= 1)
    && forall x, y :: x in multiset(entries) && y in multiset(entries) && x != y ==> Place(fold, x) != Place(fold, y)
  }

  lemma {:induction false} DistinctIsOrderFree(fold: Fold, entries: seq<Entry>)
    ensures Distinct(fold, entries) <==> DistinctEntries(fold, entries)
  {
    hide KeySegments, PathOf;
    if Distinct(fold, entries) {
      assert Ordering.Distinct(entries);
      forall e ensures multiset(entries)[e] <= 1 {
        if e in multiset(entries) { Ordering.MultisetOne(entries, e); }
      }
      forall x, y | x in multiset(entries) && y in multiset(entries) && x != y ensures Place(fold, x) != Place(fold, y) {
        var i :| 0 <= i < |entries| && entries[i] == x;
        var j :| 0 <= j < |entries| && entries[j] == y;
        if i < j { } else { assert j < i; }
      }
    }
    if DistinctEntries(fold, entries) {
      Ordering.DistinctFromMultiset(entries);
      forall i, j | 0 <= i < j < |entries| ensures Place(fold, entries[i]) != Place(fold, entries[j]) {
        assert entries[i] in multiset(entries) && entries[j] in multiset(entries);
      }
    }
  }

  /** The verdict depends on which entries the directory lists, not on the order it lists them in. */
  lemma {:induction false} VerdictIgnoresOrder(fold: Fold, input: Input, other: Input)
    requires multiset(input.entries) == multiset(other.entries)
    requires other == input.(entries := other.entries)
    ensures Admissible(fold, input) <==> Admissible(fold, other)
  {
    DistinctIsOrderFree(fold, input.entries);
    DistinctIsOrderFree(fold, other.entries);
    Ordering.TallyIsOrderFree(input.entries, other.entries, Uncompressed);
    assert |input.entries| == |multiset(input.entries)| == |multiset(other.entries)| == |other.entries|;
    hide Distinct, Total, WithinRatio;
    RulesFollow(fold, input, other);
    RulesFollow(fold, other, input);
  }

  lemma {:induction false} RulesFollow(fold: Fold, input: Input, other: Input)
    requires multiset(input.entries) == multiset(other.entries) && other.policy == input.policy
    ensures AllClean(input.entries, input.policy) ==> AllClean(other.entries, input.policy)
    ensures NoFileAbove(fold, input.entries) ==> NoFileAbove(fold, other.entries)
  {
    hide EntryClean, KeySegments, PathOf;
    forall i | 0 <= i < |other.entries| ensures exists k :: 0 <= k < |input.entries| && input.entries[k] == other.entries[i] {
      assert other.entries[i] in multiset(input.entries);
    }
  }
}
