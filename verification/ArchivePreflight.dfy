/**
 The admission verdict of src/archive_preflight.ts: one pass over the central directory with an
 accumulator, and the order-free condition its verdict is equal to.
 */
module ArchivePreflight {
  import Ordering
  import opened Text
  import opened MemberPaths

  datatype Kind = File | Directory | Symlink | Special | Unknown

  datatype Entry = Entry(name: string, kind: Kind, encrypted: bool, compression: nat, uncompressed: nat, compressed: nat)

  datatype Policy = Policy(maxPathLength: nat, maxMemberCount: nat, maxNestedDepth: nat, maxSingleMember: nat,
                           maxTotal: nat, maxRatio: real)

  datatype Input = Input(entries: seq<Entry>, policy: Policy, depth: nat, archiveBytes: nat)

  datatype Member = Member(path: string, entry: Entry)

  datatype Verdict = Verdict(accepted: bool, holds: seq<Hold>, members: seq<Member>, directories: seq<string>,
                             uncompressed: nat, compressed: nat)

  const COMPRESSION_STORED := 0
  const COMPRESSION_DEFLATE := 8

  // ---------- keys ----------

  /** The Unicode and case fold of one path segment; it never makes a separator. */
  type Fold = string -> string

  ghost predicate SegmentFold(fold: Fold) {
    forall s: string :: '/' !in s ==> '/' !in fold(s)
  }

  function Folded(fold: Fold, segments: seq<string>): (r: seq<string>)
    ensures |r| == |segments|
  {
    seq(|segments|, i requires 0 <= i < |segments| => fold(segments[i]))
  }

  function KeySegments(fold: Fold, canonical: string): (r: seq<string>)
    ensures r != []
  {
    Folded(fold, SplitOn(canonical, '/'))
  }

  /** The fold commutes with the separator, so the key of a path is the path of its folded segments. */
  function CollisionKey(fold: Fold, canonical: string): string {
    Join(KeySegments(fold, canonical), "/")
  }

  lemma {:induction false} FoldedHoldNone(fold: Fold, segments: seq<string>)
    requires SegmentFold(fold) && HoldsNone(segments, '/')
    ensures HoldsNone(Folded(fold, segments), '/')
  {}

  lemma {:induction false} KeySplits(fold: Fold, canonical: string)
    requires SegmentFold(fold)
    ensures SplitOn(CollisionKey(fold, canonical), '/') == KeySegments(fold, canonical)
  {
    PartsHoldNone(canonical, '/');
    FoldedHoldNone(fold, SplitOn(canonical, '/'));
    SplitJoined(KeySegments(fold, canonical), '/');
  }

  /** Two paths share a key exactly when their folded segments agree. */
  lemma {:induction false} KeyIsInjective(fold: Fold, a: string, b: string)
    requires SegmentFold(fold)
    ensures CollisionKey(fold, a) == CollisionKey(fold, b) <==> KeySegments(fold, a) == KeySegments(fold, b)
  {
    KeySplits(fold, a);
    KeySplits(fold, b);
    hide SplitOn, KeySegments;
  }

  /** The path of the first `depth` segments. */
  function Ancestor(canonical: string, depth: nat): string
    requires depth <= |SplitOn(canonical, '/')|
  {
    Join(SplitOn(canonical, '/')[..depth], "/")
  }

  lemma {:induction false} AncestorSegments(fold: Fold, canonical: string, depth: nat)
    requires 1 <= depth <= |SplitOn(canonical, '/')|
    ensures |KeySegments(fold, canonical)| == |SplitOn(canonical, '/')|
    ensures KeySegments(fold, Ancestor(canonical, depth)) == KeySegments(fold, canonical)[..depth]
  {
    PartsHoldNone(canonical, '/');
    SplitJoined(SplitOn(canonical, '/')[..depth], '/');
    hide SplitOn;
  }

  // ---------- one entry ----------

  function PathOf(e: Entry): string {
    CanonicalMemberPath(e.name)
  }

  function KindHold(e: Entry): seq<Hold> {
    match e.kind
    case Symlink => [Hold(EntrySymlink, Some(e.name))]
    case Special => [Hold(EntrySpecial, Some(e.name))]
    case Unknown => [Hold(EntryKindUnknown, Some(e.name))]
    case _ => []
  }

  function FileHolds(e: Entry, policy: Policy): seq<Hold> {
    If(e.compression != COMPRESSION_STORED && e.compression != COMPRESSION_DEFLATE, CompressionUnsupported, e.name)
    + If(e.uncompressed > policy.maxSingleMember, MemberTooLarge, e.name)
  }

  /** The rules that look at one entry alone. */
  predicate EntryClean(e: Entry, policy: Policy) {
    && PathSafe(e.name, policy.maxPathLength) && !e.encrypted && (e.kind.File? || e.kind.Directory?)
    && (e.kind.File? ==>
          (e.compression == COMPRESSION_STORED || e.compression == COMPRESSION_DEFLATE) && e.uncompressed <= policy.maxSingleMember)
  }

  function EntryHolds(e: Entry, policy: Policy): seq<Hold> {
    PathHolds(PathOf(e), e.name, policy.maxPathLength) + If(e.encrypted, MemberEncrypted, e.name) + KindHold(e)
  }

  lemma {:induction false} NoEntryHoldIffClean(e: Entry, policy: Policy)
    ensures EntryHolds(e, policy) == [] && (e.kind.File? ==> FileHolds(e, policy) == []) <==> EntryClean(e, policy)
  {
    NoPathHoldIffSafe(e.name, policy.maxPathLength);
    hide PathHolds, PathSafe, CanonicalMemberPath;
  }

  // ---------- the whole directory ----------

  function Uncompressed(e: Entry): nat {
    if e.kind.File? then e.uncompressed else 0
  }

  function Compressed(e: Entry): nat {
    if e.kind.File? then e.compressed else 0
  }

  function Total(entries: seq<Entry>): nat {
    Ordering.Tally(entries, Uncompressed)
  }

  function TotalCompressed(entries: seq<Entry>): nat {
    Ordering.Tally(entries, Compressed)
  }

  /** The file members, in central-directory order. */
  function Members(entries: seq<Entry>): seq<Member> {
    if entries == [] then []
    else
      var e := entries[|entries| - 1];
      Members(entries[..|entries| - 1]) + if e.kind.File? then [Member(PathOf(e), e)] else []
  }

  function Directories(entries: seq<Entry>): seq<string> {
    if entries == [] then []
    else
      var e := entries[|entries| - 1];
      Directories(entries[..|entries| - 1]) + if e.kind.Directory? && PathOf(e) != [] then [PathOf(e)] else []
  }

  predicate Distinct(fold: Fold, entries: seq<Entry>) {
    forall i, j :: 0 <= i < j < |entries| ==> KeySegments(fold, PathOf(entries[i])) != KeySegments(fold, PathOf(entries[j]))
  }

  /** No file stands where another entry needs a directory. */
  predicate NoFileAbove(fold: Fold, entries: seq<Entry>) {
    forall i, j :: 0 <= i < |entries| && 0 <= j < |entries| && entries[i].kind.File? ==>
      !(KeySegments(fold, PathOf(entries[i])) < KeySegments(fold, PathOf(entries[j])))
  }

  predicate AllClean(entries: seq<Entry>, policy: Policy) {
    forall i :: 0 <= i < |entries| ==> EntryClean(entries[i], policy)
  }

  /** The verdict's condition: it mentions no order. */
  predicate Admissible(fold: Fold, input: Input) {
    && input.depth <= input.policy.maxNestedDepth && |input.entries| <= input.policy.maxMemberCount
    && AllClean(input.entries, input.policy)
    && Distinct(fold, input.entries) && NoFileAbove(fold, input.entries)
    && Total(input.entries) <= input.policy.maxTotal
    && WithinRatio(Total(input.entries), input.archiveBytes, input.policy.maxRatio)
  }

  /** The declared expansion over the archive's own size, which counts as one byte at least. */
  predicate WithinRatio(declared: nat, archiveBytes: nat, maxRatio: real) {
    declared as real / (if archiveBytes > 1 then archiveBytes else 1) as real <= maxRatio
  }

  function ScopeHolds(input: Input): seq<Hold> {
    (if input.depth > input.policy.maxNestedDepth then [Hold(NestingDepthExceeded, None)] else [])
    + if |input.entries| > input.policy.maxMemberCount then [Hold(MemberCountExceeded, None)] else []
  }

  function ExpansionHolds(input: Input, declared: nat): seq<Hold> {
    (if declared > input.policy.maxTotal then [Hold(TotalUncompressedExceeded, None)] else [])
    + if !WithinRatio(declared, input.archiveBytes, input.policy.maxRatio) then [Hold(CompressionRatioExceeded, None)] else []
  }

  // ---------- the keys in use ----------

  predicate Placed(e: Entry) {
    PathOf(e) != [] && !StartsWith(PathOf(e), "/")
  }

  function SeenPaths(entries: seq<Entry>): set<string> {
    set e <- entries | PathOf(e) != [] :: PathOf(e)
  }

  function SeenKeys(fold: Fold, entries: seq<Entry>): set<string> {
    set e <- entries | PathOf(e) != [] :: CollisionKey(fold, PathOf(e))
  }

  function FileKeys(fold: Fold, entries: seq<Entry>): set<string> {
    set e <- entries | e.kind.File? && Placed(e) :: CollisionKey(fold, PathOf(e))
  }

  function OwnDirectoryKeys(fold: Fold, e: Entry): set<string> {
    if !Placed(e) then {}
    else (if e.kind.Directory? then {CollisionKey(fold, PathOf(e))} else {})
         + AncestorKeys(fold, PathOf(e), |SplitOn(PathOf(e), '/')|)
  }

  /** The keys of the proper ancestors of depth below `bound`. */
  function AncestorKeys(fold: Fold, canonical: string, bound: nat): set<string>
    requires bound <= |SplitOn(canonical, '/')|
  {
    set k | 1 <= k < bound :: CollisionKey(fold, Ancestor(canonical, k))
  }

  function DirectoryKeys(fold: Fold, entries: seq<Entry>): set<string> {
    if entries == [] then {}
    else DirectoryKeys(fold, entries[..|entries| - 1]) + OwnDirectoryKeys(fold, entries[|entries| - 1])
  }

  lemma {:induction false} DirectoryKeysFrom(fold: Fold, entries: seq<Entry>, key: string)
    ensures key in DirectoryKeys(fold, entries)
            <==> exists i :: 0 <= i < |entries| && key in OwnDirectoryKeys(fold, entries[i])
  {
    if entries == [] {
    } else {
      DirectoryKeysFrom(fold, entries[..|entries| - 1], key);
      assert forall i :: 0 <= i < |entries| - 1 ==> entries[..|entries| - 1][i] == entries[i];
    }
  }

  // ---------- the accumulator ----------

  /** The first path seen under a key and a later one: which of the two folds merged them. */
  function CollisionCode(nfc: string -> string, canonical: string, previous: string): Code {
    if nfc(canonical) == nfc(previous) then UnicodeCollision else CaseCollision
  }

  /** The path of the first entry filed under a key. */
  function FirstPath(fold: Fold, entries: seq<Entry>, key: string): string {
    if entries == [] then []
    else
      var rest := entries[..|entries| - 1];
      if key in SeenKeys(fold, rest) then FirstPath(fold, rest, key) else PathOf(entries[|entries| - 1])
  }

  /** The hold a path earns when its key is taken: spelled the same before, or merged by one of the two folds. */
  function CollisionOf(fold: Fold, nfc: string -> string, before: seq<Entry>, e: Entry): (h: seq<Hold>)
    ensures h == [] <==> PathOf(e) == [] || CollisionKey(fold, PathOf(e)) !in SeenKeys(fold, before)
  {
    var canonical, key := PathOf(e), CollisionKey(fold, PathOf(e));
    if canonical == [] || key !in SeenKeys(fold, before) then []
    else [Hold(if canonical in SeenPaths(before) then DuplicateMember
               else CollisionCode(nfc, canonical, FirstPath(fold, before, key)), Some(e.name))]
  }

  /** The holds of the walk, entry by entry: its own, its collision, and the rules for a file. */
  function WalkHolds(fold: Fold, nfc: string -> string, policy: Policy, entries: seq<Entry>): seq<Hold> {
    if entries == [] then []
    else
      var rest, e := entries[..|entries| - 1], entries[|entries| - 1];
      WalkHolds(fold, nfc, policy, rest) + EntryHolds(e, policy) + CollisionOf(fold, nfc, rest, e)
      + (if e.kind.File? then FileHolds(e, policy) else [])
  }

  /** The keys some entry found taken. */
  function Collided(fold: Fold, entries: seq<Entry>): set<string> {
    if entries == [] then {}
    else
      var rest, e := entries[..|entries| - 1], entries[|entries| - 1];
      Collided(fold, rest)
      + if PathOf(e) != [] && CollisionKey(fold, PathOf(e)) in SeenKeys(fold, rest) then {CollisionKey(fold, PathOf(e))} else {}
  }

  /** The keys files were declared under, each with the name that declared it first. */
  function FileUses(fold: Fold, entries: seq<Entry>): seq<(string, string)> {
    if entries == [] then []
    else
      var rest, e := entries[..|entries| - 1], entries[|entries| - 1];
      var key := CollisionKey(fold, PathOf(e));
      FileUses(fold, rest) + if e.kind.File? && Placed(e) && key !in FileKeys(fold, rest) then [(key, e.name)] else []
  }

  function Conflicts(uses: seq<(string, string)>, directories: set<string>, collided: set<string>): seq<Hold> {
    if uses == [] then []
    else
      var (key, name) := uses[|uses| - 1];
      Conflicts(uses[..|uses| - 1], directories, collided)
      + if key in directories && key !in collided then [Hold(PathConflict, Some(name))] else []
  }

  /** Every hold of an archive, in the order they are reported. */
  function AllHolds(fold: Fold, nfc: string -> string, input: Input): seq<Hold> {
    ScopeHolds(input) + WalkHolds(fold, nfc, input.policy, input.entries)
    + Conflicts(FileUses(fold, input.entries), DirectoryKeys(fold, input.entries), Collided(fold, input.entries))
    + ExpansionHolds(input, Total(input.entries))
  }

  /** What the maps and sets say about the entries inspected so far. */
  ghost predicate KeysDescribe(fold: Fold, entries: seq<Entry>, exact: set<string>, collision: set<string>, files: set<string>,
                               directories: set<string>) {
    && exact == SeenPaths(entries) && collision == SeenKeys(fold, entries)
    && files == FileKeys(fold, entries) && directories == DirectoryKeys(fold, entries)
  }

  ghost predicate Lists(order: seq<string>, keys: set<string>) {
    forall k :: k in order <==> k in keys
  }

  ghost predicate ListsDescribe(entries: seq<Entry>, members: seq<Member>, directories: seq<string>, uncompressed: nat,
                                compressed: nat) {
    && members == Members(entries) && directories == Directories(entries)
    && uncompressed == Total(entries) && compressed == TotalCompressed(entries)
  }

  /** Each key remembers the first path filed under it, and `duplicates` the keys found taken. */
  ghost predicate CollisionsDescribe(fold: Fold, entries: seq<Entry>, seenCollision: map<string, string>, duplicates: set<string>) {
    && duplicates == Collided(fold, entries)
    && forall key :: key in seenCollision ==> seenCollision[key] == FirstPath(fold, entries, key)
  }

  ghost predicate UsesDescribe(uses: seq<(string, string)>, filePaths: map<string, string>, fileOrder: seq<string>) {
    && |fileOrder| == |uses|
    && forall i :: 0 <= i < |uses| ==> fileOrder[i] == uses[i].0 && uses[i].0 in filePaths && filePaths[uses[i].0] == uses[i].1
  }

  lemma {:induction false} CollisionsAppended(fold: Fold, entries: seq<Entry>, e: Entry, seen: map<string, string>, duplicates: set<string>)
    requires CollisionsDescribe(fold, entries, seen, duplicates) && seen.Keys == SeenKeys(fold, entries)
    ensures var canonical, key := PathOf(e), CollisionKey(fold, PathOf(e));
            CollisionsDescribe(fold, entries + [e], if canonical == [] || key in seen then seen else seen[key := canonical],
                               duplicates + if canonical == [] || key !in seen then {} else {key})
  {
    hide PathOf, CollisionKey, SeenKeys;
    assert (entries + [e])[..|entries|] == entries && (entries + [e])[|entries|] == e;
  }

  lemma {:induction false} FirstPathSeen(fold: Fold, entries: seq<Entry>, seen: map<string, string>, duplicates: set<string>)
    requires CollisionsDescribe(fold, entries, seen, duplicates)
    ensures forall key :: key in seen ==> seen[key] == FirstPath(fold, entries, key)
  {}

  lemma {:induction false} UsesAppended(fold: Fold, entries: seq<Entry>, e: Entry, filePaths: map<string, string>, fileOrder: seq<string>)
    requires UsesDescribe(FileUses(fold, entries), filePaths, fileOrder) && filePaths.Keys == FileKeys(fold, entries)
    ensures var key := CollisionKey(fold, PathOf(e));
            var grows := e.kind.File? && Placed(e) && key !in filePaths;
            UsesDescribe(FileUses(fold, entries + [e]), if grows then filePaths[key := e.name] else filePaths,
                         if grows then fileOrder + [key] else fileOrder)
  {
    hide PathOf, CollisionKey, FileKeys, Placed;
    assert (entries + [e])[..|entries|] == entries && (entries + [e])[|entries|] == e;
  }

  lemma {:induction false} WalkAppended(fold: Fold, nfc: string -> string, policy: Policy, entries: seq<Entry>, e: Entry)
    ensures WalkHolds(fold, nfc, policy, entries + [e])
            == WalkHolds(fold, nfc, policy, entries) + EntryHolds(e, policy) + CollisionOf(fold, nfc, entries, e)
               + (if e.kind.File? then FileHolds(e, policy) else [])
  {
    hide EntryHolds, FileHolds, CollisionOf;
    assert (entries + [e])[..|entries|] == entries && (entries + [e])[|entries|] == e;
  }

  lemma {:induction false} Regrouped(scope: seq<Hold>, walk: seq<Hold>, own: seq<Hold>, collision: seq<Hold>, file: seq<Hold>)
    ensures (scope + walk) + (own + collision + file) == scope + (walk + own + collision + file)
  {}

  /** The walk reports nothing exactly when every entry is clean and no two share a key. */
  lemma {:induction false} WalkCleanIff(fold: Fold, nfc: string -> string, policy: Policy, entries: seq<Entry>)
    requires SegmentFold(fold)
    ensures WalkHolds(fold, nfc, policy, entries) == [] <==> AllClean(entries, policy) && Distinct(fold, entries)
    ensures WalkHolds(fold, nfc, policy, entries) == [] ==> Collided(fold, entries) == {}
  {
    hide EntryHolds, FileHolds, EntryClean, SegmentFold, PathOf, CollisionKey, SeenKeys, KeySegments, FirstPath, SeenPaths;
    if entries == [] {
    } else {
      var rest, e := entries[..|entries| - 1], entries[|entries| - 1];
      assert entries == rest + [e];
      WalkCleanIff(fold, nfc, policy, rest);
      CleanAfter(fold, policy, rest, e);
      NoEntryHoldIffClean(e, policy);
      hide AllClean, Distinct;
    }
  }

  lemma {:induction false} NoConflictIff(uses: seq<(string, string)>, directories: set<string>, collided: set<string>)
    ensures Conflicts(uses, directories, collided) == []
            <==> forall i :: 0 <= i < |uses| && uses[i].0 in directories ==> uses[i].0 in collided
  {
    if uses == [] {
    } else {
      var rest, last := uses[..|uses| - 1], uses[|uses| - 1];
      NoConflictIff(rest, directories, collided);
      assert forall i :: 0 <= i < |rest| ==> rest[i] == uses[i];
    }
  }

  ghost predicate IsUse(uses: seq<(string, string)>, key: string) {
    exists i :: 0 <= i < |uses| && uses[i].0 == key
  }

  lemma {:induction false} OneMoreUse(uses: seq<(string, string)>, use: (string, string), key: string)
    ensures IsUse(uses + [use], key) <==> IsUse(uses, key) || key == use.0
  {
    var all := uses + [use];
    assert all[|uses|] == use && forall i :: 0 <= i < |uses| ==> all[i] == uses[i];
  }

  lemma {:induction false} UsesAreFileKeys(fold: Fold, entries: seq<Entry>, key: string)
    ensures key in FileKeys(fold, entries) <==> IsUse(FileUses(fold, entries), key)
  {
    hide PathOf, CollisionKey, Placed, IsUse;
    if entries == [] {
      assert !IsUse([], key) by { NoUse(key); }
    } else {
      var rest, e := entries[..|entries| - 1], entries[|entries| - 1];
      assert entries == rest + [e];
      UsesAreFileKeys(fold, rest, key);
      Appended(fold, rest, e);
      hide FileKeys;
      OneMoreUse(FileUses(fold, rest), (CollisionKey(fold, PathOf(e)), e.name), key);
      assert FileUses(fold, rest) + [] == FileUses(fold, rest);
    }
  }

  lemma {:induction false} NoUse(key: string)
    ensures !IsUse([], key)
  {}

  lemma {:induction false} Appended(fold: Fold, entries: seq<Entry>, e: Entry)
    ensures SeenPaths(entries + [e]) == SeenPaths(entries) + (if PathOf(e) == [] then {} else {PathOf(e)})
    ensures SeenKeys(fold, entries + [e])
            == SeenKeys(fold, entries) + (if PathOf(e) == [] then {} else {CollisionKey(fold, PathOf(e))})
    ensures FileKeys(fold, entries + [e])
            == FileKeys(fold, entries) + (if e.kind.File? && Placed(e) then {CollisionKey(fold, PathOf(e))} else {})
    ensures DirectoryKeys(fold, entries + [e]) == DirectoryKeys(fold, entries) + OwnDirectoryKeys(fold, e)
    ensures Members(entries + [e]) == Members(entries) + (if e.kind.File? then [Member(PathOf(e), e)] else [])
    ensures Directories(entries + [e])
            == Directories(entries) + (if e.kind.Directory? && PathOf(e) != [] then [PathOf(e)] else [])
    ensures Total(entries + [e]) == Total(entries) + (if e.kind.File? then e.uncompressed else 0)
    ensures TotalCompressed(entries + [e]) == TotalCompressed(entries) + (if e.kind.File? then e.compressed else 0)
  {
    hide PathOf, CollisionKey, Placed, OwnDirectoryKeys;
    assert (entries + [e])[..|entries|] == entries && (entries + [e])[|entries|] == e;
  }

  /** Every path seen has its key seen. */
  lemma {:induction false} SeenTogether(fold: Fold, entries: seq<Entry>, exact: set<string>, collision: set<string>,
                                        files: set<string>, directories: set<string>)
    requires KeysDescribe(fold, entries, exact, collision, files, directories)
    ensures exact == SeenPaths(entries) && collision == SeenKeys(fold, entries) && files == FileKeys(fold, entries)
    ensures forall p :: p in exact ==> CollisionKey(fold, p) in collision
  {
    hide PathOf, CollisionKey;
  }

  lemma {:induction false} KeysAppended(fold: Fold, entries: seq<Entry>, e: Entry, exact: set<string>, collision: set<string>,
                                        files: set<string>, directories: set<string>)
    requires KeysDescribe(fold, entries, exact, collision, files, directories)
    ensures KeysDescribe(fold, entries + [e], exact + (if PathOf(e) == [] then {} else {PathOf(e)}),
                         collision + (if PathOf(e) == [] then {} else {CollisionKey(fold, PathOf(e))}),
                         files + (if e.kind.File? && Placed(e) then {CollisionKey(fold, PathOf(e))} else {}),
                         directories + OwnDirectoryKeys(fold, e))
  {
    hide PathOf, CollisionKey, Placed, OwnDirectoryKeys, SeenPaths, SeenKeys, FileKeys, DirectoryKeys;
    Appended(fold, entries, e);
  }

  lemma {:induction false} ListsAppended(fold: Fold, entries: seq<Entry>, e: Entry, members: seq<Member>,
                                         directories: seq<string>, uncompressed: nat, compressed: nat)
    requires ListsDescribe(entries, members, directories, uncompressed, compressed)
    ensures ListsDescribe(entries + [e], if e.kind.File? then members + [Member(PathOf(e), e)] else members,
                          if e.kind.Directory? && PathOf(e) != [] then directories + [PathOf(e)] else directories,
                          if e.kind.File? then uncompressed + e.uncompressed else uncompressed,
                          if e.kind.File? then compressed + e.compressed else compressed)
  {
    hide PathOf, CollisionKey, Placed, OwnDirectoryKeys, SeenPaths, SeenKeys, FileKeys, DirectoryKeys, Members, Directories,
         Total, TotalCompressed;
    Appended(fold, entries, e);
  }

  lemma {:induction false} DistinctAfter(fold: Fold, entries: seq<Entry>, e: Entry)
    ensures Distinct(fold, entries + [e])
            <==> Distinct(fold, entries) && forall i :: 0 <= i < |entries| ==>
              KeySegments(fold, PathOf(entries[i])) != KeySegments(fold, PathOf(e))
  {
    hide PathOf, KeySegments;
    var all := entries + [e];
    assert all[|entries|] == e && forall i :: 0 <= i < |entries| ==> all[i] == entries[i];
  }

  /** One more entry keeps the directory clean exactly when it is clean and its key is new. */
  lemma {:induction false} CleanAfter(fold: Fold, policy: Policy, entries: seq<Entry>, e: Entry)
    requires SegmentFold(fold)
    ensures AllClean(entries + [e], policy) && Distinct(fold, entries + [e])
            <==> AllClean(entries, policy) && Distinct(fold, entries) && EntryClean(e, policy)
                 && CollisionKey(fold, PathOf(e)) !in SeenKeys(fold, entries)
    ensures EntryClean(e, policy) ==> PathOf(e) != []
  {
    var all := entries + [e];
    DistinctAfter(fold, entries, e);
    assert all[|entries|] == e && forall i :: 0 <= i < |entries| ==> all[i] == entries[i];
    assert AllClean(all, policy) <==> AllClean(entries, policy) && EntryClean(e, policy) by { hide EntryClean; }
    assert EntryClean(e, policy) ==> PathOf(e) != [];
    if AllClean(entries, policy) {
      NewKey(fold, policy, entries, e);
    }
  }

  lemma {:induction false} NewKey(fold: Fold, policy: Policy, entries: seq<Entry>, e: Entry)
    requires SegmentFold(fold) && AllClean(entries, policy)
    ensures CollisionKey(fold, PathOf(e)) !in SeenKeys(fold, entries)
            <==> forall i :: 0 <= i < |entries| ==> KeySegments(fold, PathOf(entries[i])) != KeySegments(fold, PathOf(e))
  {
    forall i | 0 <= i < |entries|
      ensures PathOf(entries[i]) != []
      ensures CollisionKey(fold, PathOf(entries[i])) == CollisionKey(fold, PathOf(e))
              <==> KeySegments(fold, PathOf(entries[i])) == KeySegments(fold, PathOf(e))
    {
      assert EntryClean(entries[i], policy);
      KeyIsInjective(fold, PathOf(entries[i]), PathOf(e));
    }
    hide PathOf, KeySegments, CollisionKey, AllClean, SegmentFold;
  }

  class Accumulator {
    const fold: Fold
    const nfc: string -> string
    const policy: Policy
    ghost const scope: seq<Hold>
    ghost var inspected: seq<Entry>

    var holds: seq<Hold>
    var members: seq<Member>
    var directories: seq<string>
    var uncompressed: nat
    var compressed: nat
    var seenExact: map<string, string>
    var seenCollision: map<string, string>
    var filePaths: map<string, string>
    /** The insertion order of `filePaths`. */
    var fileOrder: seq<string>
    var duplicates: set<string>
    var directoryPaths: set<string>

    constructor (fold: Fold, nfc: string -> string, policy: Policy, scope: seq<Hold>)
      ensures this.fold == fold && this.nfc == nfc && this.policy == policy && this.scope == scope
      ensures inspected == [] && holds == scope && Valid()
    {
      this.fold, this.nfc, this.policy, this.scope := fold, nfc, policy, scope;
      inspected, holds, members, directories, uncompressed, compressed := [], scope, [], [], 0, 0;
      seenExact, seenCollision, filePaths, fileOrder, duplicates, directoryPaths := map[], map[], map[], [], {}, {};
    }

    ghost predicate Valid()
      reads this
    {
      && KeysDescribe(fold, inspected, seenExact.Keys, seenCollision.Keys, filePaths.Keys, directoryPaths)
      && CollisionsDescribe(fold, inspected, seenCollision, duplicates)
      && UsesDescribe(FileUses(fold, inspected), filePaths, fileOrder)
      && holds == scope + WalkHolds(fold, nfc, policy, inspected)
      && ListsDescribe(inspected, members, directories, uncompressed, compressed)
    }

    method CollisionHolds(e: Entry, canonical: string) returns (h: seq<Hold>)
      requires forall p :: p in seenExact ==> CollisionKey(fold, p) in seenCollision
      modifies this`seenExact, this`seenCollision, this`duplicates
      ensures seenExact.Keys == old(seenExact.Keys) + (if canonical == [] then {} else {canonical})
      ensures var key := CollisionKey(fold, canonical);
              var taken := canonical != [] && key in old(seenCollision);
              && seenCollision == (if canonical == [] || taken then old(seenCollision) else old(seenCollision)[key := canonical])
              && duplicates == old(duplicates) + (if taken then {key} else {})
              && h == if !taken then []
                      else [Hold(if canonical in old(seenExact) then DuplicateMember
                                 else CollisionCode(nfc, canonical, old(seenCollision)[key]), Some(e.name))]
    {
      hide CollisionKey;
      if canonical == [] { return []; }
      var key := CollisionKey(fold, canonical);
      if canonical in seenExact {
        duplicates := duplicates + {key};
        return [Hold(DuplicateMember, Some(e.name))];
      }
      seenExact := seenExact[canonical := e.name];
      if key in seenCollision {
        duplicates := duplicates + {key};
        return [Hold(CollisionCode(nfc, canonical, seenCollision[key]), Some(e.name))];
      }
      seenCollision := seenCollision[key := canonical];
      return [];
    }

    method NotePathUsage(e: Entry, canonical: string)
      requires canonical == PathOf(e)
      modifies this`filePaths, this`fileOrder, this`directoryPaths
      ensures directoryPaths == old(directoryPaths) + OwnDirectoryKeys(fold, e)
      ensures var key := CollisionKey(fold, canonical);
              var grows := e.kind.File? && Placed(e) && key !in old(filePaths);
              && filePaths == (if grows then old(filePaths)[key := e.name] else old(filePaths))
              && fileOrder == (if grows then old(fileOrder) + [key] else old(fileOrder))
    {
      hide CollisionKey, SplitOn, Ancestor, CanonicalMemberPath;
      if |canonical| == 0 || StartsWith(canonical, "/") { return; }
      var segments, key := SplitOn(canonical, '/'), CollisionKey(fold, canonical);
      if e.kind.Directory? {
        directoryPaths := directoryPaths + {key};
      } else if e.kind.File? && key !in filePaths {
        filePaths, fileOrder := filePaths[key := e.name], fileOrder + [key];
      }
      var depth := 1;
      ghost var own, files, order := directoryPaths, filePaths, fileOrder;
      while depth < |segments|
        invariant 1 <= depth <= |segments|
        invariant directoryPaths == own + AncestorKeys(fold, canonical, depth)
        invariant filePaths == files && fileOrder == order
      {
        directoryPaths := directoryPaths + {CollisionKey(fold, Ancestor(canonical, depth))};
        assert AncestorKeys(fold, canonical, depth + 1)
               == AncestorKeys(fold, canonical, depth) + {CollisionKey(fold, Ancestor(canonical, depth))};
        depth := depth + 1;
      }
      assert own + AncestorKeys(fold, canonical, |segments|) == old(directoryPaths) + OwnDirectoryKeys(fold, e);
    }

    /** The step of the walk: the entry's holds, then what it adds to every list, sum and key set. */
    method Inspect(e: Entry)
      requires Valid()
      modifies this
      ensures Valid() && inspected == old(inspected) + [e]
    {
      hide CanonicalMemberPath, EntryHolds, FileHolds, CollisionOf, WalkHolds, KeysDescribe, ListsDescribe, CollisionsDescribe,
           UsesDescribe, FileUses;
      var canonical := CanonicalMemberPath(e.name);
      var collision := RecordPaths(e, canonical);
      WalkAppended(fold, nfc, policy, inspected, e);
      RecordHolds(e, canonical, collision);
      Regrouped(scope, WalkHolds(fold, nfc, policy, inspected), EntryHolds(e, policy), collision,
                if e.kind.File? then FileHolds(e, policy) else []);
      RecordMember(e, canonical);
      inspected := inspected + [e];
    }

    /** Usage and collision of one path; the hold the collision earns. */
    method RecordPaths(e: Entry, canonical: string) returns (collision: seq<Hold>)
      requires canonical == PathOf(e)
      requires KeysDescribe(fold, inspected, seenExact.Keys, seenCollision.Keys, filePaths.Keys, directoryPaths)
      requires CollisionsDescribe(fold, inspected, seenCollision, duplicates)
      requires UsesDescribe(FileUses(fold, inspected), filePaths, fileOrder)
      modifies this`seenExact, this`seenCollision, this`duplicates, this`filePaths, this`fileOrder, this`directoryPaths
      ensures KeysDescribe(fold, inspected + [e], seenExact.Keys, seenCollision.Keys, filePaths.Keys, directoryPaths)
      ensures CollisionsDescribe(fold, inspected + [e], seenCollision, duplicates)
      ensures UsesDescribe(FileUses(fold, inspected + [e]), filePaths, fileOrder)
      ensures collision == CollisionOf(fold, nfc, inspected, e)
    {
      hide CanonicalMemberPath, CollisionKey, SeenKeys, SeenPaths, FileKeys, OwnDirectoryKeys, Placed, KeysDescribe, CollisionsDescribe,
           UsesDescribe, FileUses, FirstPath;
      SeenTogether(fold, inspected, seenExact.Keys, seenCollision.Keys, filePaths.Keys, directoryPaths);
      KeysAppended(fold, inspected, e, seenExact.Keys, seenCollision.Keys, filePaths.Keys, directoryPaths);
      CollisionsAppended(fold, inspected, e, seenCollision, duplicates);
      UsesAppended(fold, inspected, e, filePaths, fileOrder);
      FirstPathSeen(fold, inspected, seenCollision, duplicates);
      ghost var key := CollisionKey(fold, canonical);
      NotePathUsage(e, canonical);
      assert filePaths.Keys == old(filePaths.Keys) + if e.kind.File? && Placed(e) then {key} else {};
      collision := CollisionHolds(e, canonical);
      assert seenCollision.Keys == old(seenCollision.Keys) + if canonical == [] then {} else {key};
    }

    method RecordMember(e: Entry, canonical: string)
      requires canonical == PathOf(e) && ListsDescribe(inspected, members, directories, uncompressed, compressed)
      modifies this`members, this`directories, this`uncompressed, this`compressed
      ensures ListsDescribe(inspected + [e], members, directories, uncompressed, compressed)
    {
      hide CanonicalMemberPath, ListsDescribe;
      ListsAppended(fold, inspected, e, members, directories, uncompressed, compressed);
      if e.kind.Directory? {
        if |canonical| > 0 { directories := directories + [canonical]; }
      } else if e.kind.File? {
        uncompressed := uncompressed + e.uncompressed;
        compressed := compressed + e.compressed;
        members := members + [Member(canonical, e)];
      }
    }

    /** The holds of one entry, in the order they are reported. */
    method RecordHolds(e: Entry, canonical: string, collision: seq<Hold>)
      requires canonical == PathOf(e)
      modifies this`holds
      ensures holds == old(holds) + (EntryHolds(e, policy) + collision + (if e.kind.File? then FileHolds(e, policy) else []))
    {
      hide CanonicalMemberPath, PathHolds, KindHold, FileHolds, If;
      holds := holds + PathHolds(canonical, e.name, policy.maxPathLength);
      holds := holds + If(e.encrypted, MemberEncrypted, e.name);
      holds := holds + KindHold(e);
      holds := holds + collision;
      if e.kind.File? { holds := holds + FileHolds(e, policy); }
    }

    /** One hold for each file key that also serves as a directory, unless a collision was reported there. */
    method PathConflictHolds() returns (h: seq<Hold>)
      requires Valid()
      ensures h == Conflicts(FileUses(fold, inspected), directoryPaths, duplicates)
    {
      hide KeysDescribe, CollisionsDescribe, ListsDescribe, FileUses, WalkHolds;
      ghost var uses := FileUses(fold, inspected);
      h := [];
      var i := 0;
      while i < |fileOrder|
        invariant 0 <= i <= |fileOrder| && h == Conflicts(uses[..i], directoryPaths, duplicates)
      {
        var key := fileOrder[i];
        assert uses[..i + 1][..i] == uses[..i];
        if key in directoryPaths && key !in duplicates {
          h := h + [Hold(PathConflict, Some(filePaths[key]))];
        }
        i := i + 1;
      }
      assert uses[..i] == uses;
    }
  }

  // ---------- conflicts ----------

  lemma {:induction false} CleanIsPlaced(e: Entry, policy: Policy)
    requires EntryClean(e, policy)
    ensures Placed(e)
  {
    CanonicalSegments(e.name);
    StepsHoldNone(e.name);
    hide SplitOn, Slashes, Inside, FitsFilesystem, UnitLength;
    JoinStartsWithNone(Steps(SplitOn(Slashes(e.name), '/')), '/');
  }

  /** A key used as a directory is the key of a directory entry, or of a proper prefix of some entry's path. */
  lemma {:induction false} OwnDirectoryKey(fold: Fold, e: Entry, file: string)
    requires SegmentFold(fold) && Placed(e)
    ensures CollisionKey(fold, file) in OwnDirectoryKeys(fold, e)
            <==> (e.kind.Directory? && KeySegments(fold, file) == KeySegments(fold, PathOf(e)))
                 || KeySegments(fold, file) < KeySegments(fold, PathOf(e))
  {
    var path := PathOf(e);
    hide PathOf, SplitOn, KeySegments, CollisionKey, Ancestor, Placed;
    KeyIsInjective(fold, file, path);
    AncestorKey(fold, path, file);
  }

  lemma {:induction false} AncestorKey(fold: Fold, path: string, file: string)
    requires SegmentFold(fold)
    ensures CollisionKey(fold, file) in AncestorKeys(fold, path, |SplitOn(path, '/')|)
            <==> KeySegments(fold, file) < KeySegments(fold, path)
  {
    var n := |SplitOn(path, '/')|;
    hide SplitOn, KeySegments, CollisionKey, Ancestor;
    AncestorSegments(fold, path, n);
    forall k | 1 <= k < n
      ensures CollisionKey(fold, Ancestor(path, k)) == CollisionKey(fold, file)
              <==> KeySegments(fold, path)[..k] == KeySegments(fold, file)
    {
      AncestorSegments(fold, path, k);
      KeyIsInjective(fold, Ancestor(path, k), file);
    }
    if KeySegments(fold, file) < KeySegments(fold, path) {
      var k := |KeySegments(fold, file)|;
      assert KeySegments(fold, path)[..k] == KeySegments(fold, file);
      assert CollisionKey(fold, Ancestor(path, k)) in AncestorKeys(fold, path, n);
    }
  }

  /** Over a clean directory, no key is used both ways exactly when no file stands above another entry. */
  lemma {:induction false} ConflictIffFileAbove(fold: Fold, policy: Policy, entries: seq<Entry>)
    requires SegmentFold(fold) && AllClean(entries, policy) && Distinct(fold, entries)
    ensures (forall k :: k in FileKeys(fold, entries) ==> k !in DirectoryKeys(fold, entries)) <==> NoFileAbove(fold, entries)
  {
    hide CollisionKey, KeySegments, SegmentFold, DirectoryKeys, OwnDirectoryKeys, PathOf, EntryClean, Placed;
    forall i | 0 <= i < |entries| && entries[i].kind.File?
      ensures CollisionKey(fold, PathOf(entries[i])) in FileKeys(fold, entries)
      ensures CollisionKey(fold, PathOf(entries[i])) in DirectoryKeys(fold, entries) <==> StandsAbove(fold, entries, i)
    {
      CleanIsPlaced(entries[i], policy);
      UsedAsDirectory(fold, policy, entries, i);
    }
  }

  ghost predicate StandsAbove(fold: Fold, entries: seq<Entry>, i: nat)
    requires i < |entries|
  {
    exists j :: 0 <= j < |entries| && KeySegments(fold, PathOf(entries[i])) < KeySegments(fold, PathOf(entries[j]))
  }

  lemma {:induction false} UsedAsDirectory(fold: Fold, policy: Policy, entries: seq<Entry>, i: nat)
    requires SegmentFold(fold) && AllClean(entries, policy) && Distinct(fold, entries)
    requires i < |entries| && entries[i].kind.File?
    ensures CollisionKey(fold, PathOf(entries[i])) in DirectoryKeys(fold, entries) <==> StandsAbove(fold, entries, i)
  {
    hide CollisionKey, KeySegments, SegmentFold, DirectoryKeys, OwnDirectoryKeys, PathOf, EntryClean, Placed;
    var file := PathOf(entries[i]);
    DirectoryKeysFrom(fold, entries, CollisionKey(fold, file));
    forall j | 0 <= j < |entries|
      ensures CollisionKey(fold, file) in OwnDirectoryKeys(fold, entries[j])
              <==> KeySegments(fold, file) < KeySegments(fold, PathOf(entries[j]))
    {
      CleanIsPlaced(entries[j], policy);
      OwnDirectoryKey(fold, entries[j], file);
      assert i < j ==> KeySegments(fold, file) != KeySegments(fold, PathOf(entries[j]));
      assert j < i ==> KeySegments(fold, file) != KeySegments(fold, PathOf(entries[j]));
    }
  }

  // ---------- the verdict ----------

  /** Judge an archive: the walk, then the rules over the whole directory. */
  method PreflightArchive(input: Input, fold: Fold, nfc: string -> string) returns (verdict: Verdict)
    requires SegmentFold(fold)
    ensures verdict.holds == AllHolds(fold, nfc, input)
    ensures verdict.accepted <==> verdict.holds == []
    ensures verdict.accepted <==> Admissible(fold, input)
    ensures verdict.members == Members(input.entries) && verdict.directories == Directories(input.entries)
    ensures verdict.uncompressed == Total(input.entries) && verdict.compressed == TotalCompressed(input.entries)
  {
    hide SegmentFold, AllClean, Distinct, NoFileAbove, FileKeys, DirectoryKeys, SeenKeys, SeenPaths, Members, Directories,
         Total, TotalCompressed, WithinRatio, WalkHolds, FileUses, Conflicts, CollisionsDescribe, UsesDescribe, Collided;
    var a := new Accumulator(fold, nfc, input.policy, ScopeHolds(input));
    var i := 0;
    while i < |input.entries|
      invariant 0 <= i <= |input.entries| && fresh(a) && a.Valid() && a.inspected == input.entries[..i]
      invariant a.fold == fold && a.nfc == nfc && a.policy == input.policy && a.scope == ScopeHolds(input)
    {
      assert input.entries[..i + 1] == input.entries[..i] + [input.entries[i]];
      a.Inspect(input.entries[i]);
      i := i + 1;
    }
    assert a.inspected == input.entries;
    var conflicts := a.PathConflictHolds();
    var holds := a.holds + conflicts + ExpansionHolds(input, a.uncompressed);
    assert a.duplicates == Collided(fold, input.entries) by { DuplicatesAre(fold, input.entries, a.seenCollision, a.duplicates); }
    NoHoldIffAdmissible(fold, nfc, input);
    return Verdict(holds == [], holds, a.members, a.directories, a.uncompressed, a.compressed);
  }

  lemma {:induction false} DuplicatesAre(fold: Fold, entries: seq<Entry>, seen: map<string, string>, duplicates: set<string>)
    requires CollisionsDescribe(fold, entries, seen, duplicates)
    ensures duplicates == Collided(fold, entries)
  {}

  /** What the holds amount to. */
  lemma {:induction false} NoHoldIffAdmissible(fold: Fold, nfc: string -> string, input: Input)
    requires SegmentFold(fold)
    ensures AllHolds(fold, nfc, input) == [] <==> Admissible(fold, input)
  {
    hide SegmentFold, AllClean, Distinct, NoFileAbove, FileKeys, DirectoryKeys, Total, WithinRatio, WalkHolds, FileUses, Conflicts, Collided;
    var entries := input.entries;
    WalkCleanIff(fold, nfc, input.policy, entries);
    NoConflictIff(FileUses(fold, entries), DirectoryKeys(fold, entries), Collided(fold, entries));
    forall k ensures k in FileKeys(fold, entries) <==> IsUse(FileUses(fold, entries), k) { UsesAreFileKeys(fold, entries, k); }
    assert (forall k :: k in FileKeys(fold, entries) && k in DirectoryKeys(fold, entries) ==> k in Collided(fold, entries))
           <==> Conflicts(FileUses(fold, entries), DirectoryKeys(fold, entries), Collided(fold, entries)) == [];
    if AllClean(entries, input.policy) && Distinct(fold, entries) {
      ConflictIffFileAbove(fold, input.policy, entries);
    }
  }
}
