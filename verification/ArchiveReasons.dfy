/** Which hold an archive earns for what: every code is reported exactly for its own reason, with the member that gives it. */
module ArchiveReasons {
  import opened Text
  import opened MemberPaths
  import opened ArchivePreflight

  predicate IsSlash(c: char) {
    c == '/' || c == '\\'
  }

  // ---------- one name ----------

  ghost predicate HasPart(s: string, part: string, a: string, b: string) {
    s == a + part + b && (a == [] || a[|a| - 1] == '/') && (b == [] || b[0] == '/')
  }

  lemma {:induction false} FrontRegrouped(front: string, rest: string, part: string, b: string)
    ensures front + (rest + part + b) == (front + rest) + part + b
  {}

  lemma {:induction false} SplitStep(s: string) returns (at: nat)
    ensures at <= |s| && at == Find(s, '/', 0)
    ensures at == |s| ==> SplitOn(s, '/') == [s]
    ensures at < |s| ==> s[at] == '/' && SplitOn(s, '/') == [s[..at]] + SplitOn(s[at + 1..], '/')
  {
    at := Find(s, '/', 0);
  }

  lemma {:induction false} PartShown(s: string, part: string) returns (a: string, b: string)
    requires part in SplitOn(s, '/')
    ensures HasPart(s, part, a, b)
    decreases |s|
  {
    hide SplitOn, Find;
    var at := SplitStep(s);
    if at == |s| {
      a, b := [], [];
      assert s == [] + part + [];
    } else if part == s[..at] {
      a, b := [], s[at..];
      assert s == [] + part + b;
    } else {
      var front, rest := s[..at + 1], [];
      rest, b := PartShown(s[at + 1..], part);
      a := front + rest;
      FrontRegrouped(front, rest, part, b);
      assert s == front + s[at + 1..] && front[at] == '/';
    }
  }

  lemma {:induction false} InSplitRest(s: string, part: string)
    requires Find(s, '/', 0) < |s|
    ensures part in SplitOn(s[Find(s, '/', 0) + 1..], '/') ==> part in SplitOn(s, '/')
  {}

  lemma {:induction false} BehindTheCut(a: string, part: string, b: string, at: nat)
    requires at < |a|
    ensures (a + part + b)[at + 1..] == a[at + 1..] + part + b
  {
    assert a == a[..at + 1] + a[at + 1..];
    FrontRegrouped(a[..at + 1], a[at + 1..], part, b);
  }

  lemma {:induction false} PartLeads(part: string, b: string)
    requires '/' !in part && (b == [] || b[0] == '/')
    ensures part in SplitOn(part + b, '/')
  {
    var s := part + b;
    forall i | 0 <= i < |part| ensures s[i] != '/' { assert s[i] == part[i]; }
    if b == [] { assert s == part; } else { assert s[|part|] == b[0]; }
    FindUnique(s, '/', 0, |part|);
    assert s[..|part|] == part;
  }

  lemma {:induction false} PartFound(s: string, part: string, a: string, b: string)
    requires HasPart(s, part, a, b) && '/' !in part
    ensures part in SplitOn(s, '/')
    decreases |s|
  {
    hide SplitOn, Find;
    if a == [] {
      assert s == part + b;
      PartLeads(part, b);
    } else {
      var at := Find(s, '/', 0);
      assert s[|a| - 1] == a[|a| - 1] == '/';
      assert at <= |a| - 1;
      InSplitRest(s, part);
      BehindTheCut(a, part, b, at);
      var rest := a[at + 1..];
      if rest != [] { assert rest[|rest| - 1] == a[|a| - 1]; }
      PartFound(s[at + 1..], part, rest, b);
    }
  }

  /** `..` as a whole component, behind and in front of separators of either kind. */
  ghost predicate ClimbsAt(raw: string, a: string, b: string) {
    raw == a + ".." + b && (a == [] || IsSlash(a[|a| - 1])) && (b == [] || IsSlash(b[0]))
  }

  lemma {:induction false} ClimbsIff(raw: string)
    ensures ".." in SplitOn(Slashes(raw), '/') <==> exists a, b :: ClimbsAt(raw, a, b)
  {
    hide SplitOn;
    var s := Slashes(raw);
    if ".." in SplitOn(s, '/') {
      var a, b := PartShown(s, "..");
      var n := |a|;
      assert s[n] == '.' && s[n + 1] == '.';
      assert raw[n] == '.' && raw[n + 1] == '.';
      assert raw == raw[..n] + ".." + raw[n + 2..];
      if n > 0 { assert s[n - 1] == a[n - 1]; }
      if b != [] { assert s[n + 2] == b[0]; }
      assert ClimbsAt(raw, raw[..n], raw[n + 2..]);
    }
    if a, b :| ClimbsAt(raw, a, b) {
      assert s == Slashes(a) + ".." + Slashes(b);
      PartFound(s, "..", Slashes(a), Slashes(b));
    }
  }

  /** A component no filesystem stores. */
  ghost predicate HasLongPart(canonical: string) {
    exists part :: part in SplitOn(canonical, '/') && ByteLength(part) > 255
  }

  /** What is wrong with a member name. */
  ghost predicate NameReason(code: Code, raw: string, maxPathLength: nat) {
    match code
    case PathNul => '\U{0}' in raw
    case PathUnc => |raw| >= 2 && IsSlash(raw[0]) && IsSlash(raw[1])
    case PathAbsolute => |raw| >= 1 && IsSlash(raw[0]) && !(|raw| >= 2 && IsSlash(raw[1]))
    case PathDriveAbsolute => |raw| >= 3 && ('A' <= raw[0] <= 'Z' || 'a' <= raw[0] <= 'z') && raw[1] == ':' && IsSlash(raw[2])
    case PathTraversal => exists a, b :: ClimbsAt(raw, a, b)
    case PathEmpty => CanonicalMemberPath(raw) == []
    case PathTooLong => UnitLength(raw) > maxPathLength || HasLongPart(CanonicalMemberPath(raw))
    case PathEscapesRoot => CanonicalMemberPath(raw) != [] && !Inside(CanonicalMemberPath(raw))
    case _ => false
  }

  lemma {:induction false} SlashesStart(raw: string)
    ensures StartsWith(raw, "\\\\") || StartsWith(Slashes(raw), "//") <==> |raw| >= 2 && IsSlash(raw[0]) && IsSlash(raw[1])
    ensures StartsWith(Slashes(raw), "/") <==> |raw| >= 1 && IsSlash(raw[0])
  {
    var s := Slashes(raw);
    if |raw| >= 2 {
      assert raw[..2][0] == raw[0] && raw[..2][1] == raw[1] && s[..2][0] == s[0] && s[..2][1] == s[1];
    }
    if |raw| >= 1 { assert s[..1][0] == s[0]; }
  }

  lemma {:induction false} FitsIff(canonical: string)
    ensures FitsFilesystem(canonical) <==> !HasLongPart(canonical)
  {
    hide SplitOn, ByteLength;
    if part :| part in SplitOn(canonical, '/') && ByteLength(part) > 255 {
      var i :| 0 <= i < |SplitOn(canonical, '/')| && SplitOn(canonical, '/')[i] == part;
    }
  }

  lemma {:induction false} AnyOf(h: Hold, a: seq<Hold>, b: seq<Hold>, c: seq<Hold>, d: seq<Hold>, e: seq<Hold>, f: seq<Hold>, g: seq<Hold>)
    ensures h in a + b + c + d + e + f + g <==> h in a || h in b || h in c || h in d || h in e || h in f || h in g
  {}

  lemma {:induction false} PathHoldIff(raw: string, maxPathLength: nat, h: Hold)
    ensures h in PathHolds(CanonicalMemberPath(raw), raw, maxPathLength)
            <==> h.member == Some(raw) && NameReason(h.code, raw, maxPathLength)
  {
    ClimbsIff(raw);
    SlashesStart(raw);
    FitsIff(CanonicalMemberPath(raw));
    PathHoldsAre(raw, maxPathLength, h);
    hide SplitOn, CanonicalMemberPath, Inside, FitsFilesystem, UnitLength, ByteLength, Slashes, StartsWith, ClimbsAt,
         HasLongPart, PathHolds;
  }

  /** The holds of a name, one by one. */
  lemma {:induction false} PathHoldsAre(raw: string, maxPathLength: nat, h: Hold)
    ensures var normalized, canonical := Slashes(raw), CanonicalMemberPath(raw);
            var unc := StartsWith(raw, "\\\\") || StartsWith(normalized, "//");
            h in PathHolds(canonical, raw, maxPathLength) <==>
              h.member == Some(raw)
              && match h.code
                 case PathNul => '\U{0}' in raw
                 case PathUnc => unc
                 case PathAbsolute => !unc && StartsWith(normalized, "/")
                 case PathDriveAbsolute => IsDriveAbsolute(raw)
                 case PathTraversal => ".." in SplitOn(normalized, '/')
                 case PathEmpty => canonical == []
                 case PathTooLong => UnitLength(raw) > maxPathLength || !FitsFilesystem(canonical)
                 case PathEscapesRoot => canonical != [] && !Inside(canonical)
                 case _ => false
  {
    hide SplitOn, CanonicalMemberPath, Inside, FitsFilesystem, UnitLength, Slashes, StartsWith, IsDriveAbsolute;
    var normalized, canonical := Slashes(raw), CanonicalMemberPath(raw);
    var unc := StartsWith(raw, "\\\\") || StartsWith(normalized, "//");
    AnyOf(h, If('\U{0}' in raw, PathNul, raw),
          if unc then [Hold(PathUnc, Some(raw))] else If(StartsWith(normalized, "/"), PathAbsolute, raw),
          If(IsDriveAbsolute(raw), PathDriveAbsolute, raw), If(".." in SplitOn(normalized, '/'), PathTraversal, raw),
          If(canonical == [], PathEmpty, raw),
          If(UnitLength(raw) > maxPathLength || !FitsFilesystem(canonical), PathTooLong, raw),
          If(canonical != [] && !Inside(canonical), PathEscapesRoot, raw));
  }

  // ---------- one entry ----------

  /** What is wrong with an entry by itself. */
  ghost predicate EntryReason(code: Code, e: Entry, policy: Policy) {
    || NameReason(code, e.name, policy.maxPathLength)
    || match code
       case MemberEncrypted => e.encrypted
       case EntrySymlink => e.kind.Symlink?
       case EntrySpecial => e.kind.Special?
       case EntryKindUnknown => e.kind.Unknown?
       case CompressionUnsupported => e.kind.File? && e.compression != 0 && e.compression != 8
       case MemberTooLarge => e.kind.File? && e.uncompressed > policy.maxSingleMember
       case _ => false
  }

  lemma {:induction false} EntryHoldIff(e: Entry, policy: Policy, h: Hold)
    ensures h in EntryHolds(e, policy) || (e.kind.File? && h in FileHolds(e, policy))
            <==> h.member == Some(e.name) && EntryReason(h.code, e, policy)
  {
    PathHoldIff(e.name, policy.maxPathLength, h);
    hide PathHolds, NameReason, CanonicalMemberPath;
  }

  // ---------- two entries ----------

  ghost predicate SameKey(fold: Fold, d: Entry, e: Entry) {
    PathOf(d) != [] && PathOf(e) != [] && CollisionKey(fold, PathOf(d)) == CollisionKey(fold, PathOf(e))
  }

  /** Entry `j` is the first whose path folds to the same key as that of entry `i`. */
  ghost predicate FirstAlike(fold: Fold, entries: seq<Entry>, i: nat, j: nat) {
    && j < i < |entries| && SameKey(fold, entries[j], entries[i])
    && forall k :: 0 <= k < j ==> !SameKey(fold, entries[k], entries[i])
  }

  ghost predicate Repeats(entries: seq<Entry>, i: nat) {
    i < |entries| && PathOf(entries[i]) != [] && exists j :: 0 <= j < i && PathOf(entries[j]) == PathOf(entries[i])
  }

  /** A path declared before, or one that a fold merges with the first declared under its key: the Unicode form or the case fold. */
  ghost predicate CollisionReason(code: Code, fold: Fold, nfc: string -> string, entries: seq<Entry>, i: nat)
    requires i < |entries|
  {
    match code
    case DuplicateMember => Repeats(entries, i)
    case UnicodeCollision =>
      !Repeats(entries, i) && exists j: nat :: FirstAlike(fold, entries, i, j) && nfc(PathOf(entries[i])) == nfc(PathOf(entries[j]))
    case CaseCollision =>
      !Repeats(entries, i) && exists j: nat :: FirstAlike(fold, entries, i, j) && nfc(PathOf(entries[i])) != nfc(PathOf(entries[j]))
    case _ => false
  }

  lemma {:induction false} FirstPathIs(fold: Fold, entries: seq<Entry>, key: string) returns (j: nat)
    requires key in SeenKeys(fold, entries)
    ensures j < |entries| && PathOf(entries[j]) != [] && CollisionKey(fold, PathOf(entries[j])) == key
    ensures FirstPath(fold, entries, key) == PathOf(entries[j])
    ensures forall k :: 0 <= k < j ==> PathOf(entries[k]) == [] || CollisionKey(fold, PathOf(entries[k])) != key
  {
    hide CollisionKey, PathOf;
    var rest := entries[..|entries| - 1];
    assert entries == rest + [entries[|entries| - 1]];
    if key in SeenKeys(fold, rest) {
      j := FirstPathIs(fold, rest, key);
    } else {
      j := |entries| - 1;
      forall k | 0 <= k < j ensures PathOf(entries[k]) == [] || CollisionKey(fold, PathOf(entries[k])) != key {
        assert rest[k] in rest;
      }
    }
  }

  lemma {:induction false} SeenIff(fold: Fold, entries: seq<Entry>, i: nat)
    requires i < |entries| && PathOf(entries[i]) != []
    ensures CollisionKey(fold, PathOf(entries[i])) in SeenKeys(fold, entries[..i])
            <==> exists j: nat :: FirstAlike(fold, entries, i, j)
    ensures PathOf(entries[i]) in SeenPaths(entries[..i]) <==> Repeats(entries, i)
  {
    hide CollisionKey, PathOf;
    var before, key := entries[..i], CollisionKey(fold, PathOf(entries[i]));
    if key in SeenKeys(fold, before) {
      var j := FirstPathIs(fold, before, key);
      assert FirstAlike(fold, entries, i, j);
    }
    if j: nat :| FirstAlike(fold, entries, i, j) { assert before[j] in before; }
    if Repeats(entries, i) {
      var j :| 0 <= j < i && PathOf(entries[j]) == PathOf(entries[i]);
      assert before[j] in before;
    }
  }

  lemma {:induction false} CollisionIff(fold: Fold, nfc: string -> string, entries: seq<Entry>, i: nat, h: Hold)
    requires i < |entries|
    ensures h in CollisionOf(fold, nfc, entries[..i], entries[i])
            <==> h.member == Some(entries[i].name) && CollisionReason(h.code, fold, nfc, entries, i)
  {
    hide CollisionKey, PathOf, SeenKeys, SeenPaths, FirstPath;
    var before, path := entries[..i], PathOf(entries[i]);
    var key := CollisionKey(fold, path);
    if path != [] {
      SeenIff(fold, entries, i);
      if key in SeenKeys(fold, before) {
        var j := FirstPathIs(fold, before, key);
        assert FirstAlike(fold, entries, i, j);
        forall k: nat | FirstAlike(fold, entries, i, k) ensures k == j { OneFirst(fold, entries, i, j, k); }
        if Repeats(entries, i) { RepeatsAlike(fold, entries, i); }
      } else if Repeats(entries, i) {
        RepeatsAlike(fold, entries, i);
      }
    } else {
      assert !Repeats(entries, i) && forall j: nat :: !FirstAlike(fold, entries, i, j);
    }
  }

  lemma {:induction false} OneFirst(fold: Fold, entries: seq<Entry>, i: nat, j: nat, k: nat)
    requires FirstAlike(fold, entries, i, j) && FirstAlike(fold, entries, i, k)
    ensures j == k
  {
    hide SameKey;
  }

  lemma {:induction false} RepeatsAlike(fold: Fold, entries: seq<Entry>, i: nat)
    requires Repeats(entries, i)
    ensures CollisionKey(fold, PathOf(entries[i])) in SeenKeys(fold, entries[..i])
  {
    hide CollisionKey, PathOf;
    var j :| 0 <= j < i && PathOf(entries[j]) == PathOf(entries[i]);
    assert entries[..i][j] in entries[..i];
  }

  // ---------- the whole archive ----------

  /** An entry that gives this reason, by itself or with the ones before it. */
  ghost predicate Gives(fold: Fold, nfc: string -> string, policy: Policy, entries: seq<Entry>, h: Hold, i: nat) {
    && i < |entries| && h.member == Some(entries[i].name)
    && (EntryReason(h.code, entries[i], policy) || CollisionReason(h.code, fold, nfc, entries, i))
  }

  lemma {:induction false} GivesBefore(fold: Fold, nfc: string -> string, policy: Policy, entries: seq<Entry>, h: Hold, i: nat)
    requires i < |entries| - 1
    ensures Gives(fold, nfc, policy, entries, h, i) <==> Gives(fold, nfc, policy, entries[..|entries| - 1], h, i)
  {
    hide EntryReason, SameKey, PathOf;
    var rest := entries[..|entries| - 1];
    assert Repeats(entries, i) <==> Repeats(rest, i);
    assert forall j: nat :: FirstAlike(fold, entries, i, j) <==> FirstAlike(fold, rest, i, j);
  }

  lemma {:induction false} GivesLast(fold: Fold, nfc: string -> string, policy: Policy, entries: seq<Entry>, h: Hold)
    requires entries != []
    ensures var last := |entries| - 1;
            h in WalkHolds(fold, nfc, policy, entries)
            <==> h in WalkHolds(fold, nfc, policy, entries[..last]) || Gives(fold, nfc, policy, entries, h, last)
  {
    var last := |entries| - 1;
    EntryHoldIff(entries[last], policy, h);
    CollisionIff(fold, nfc, entries, last, h);
    hide EntryHolds, FileHolds, CollisionOf, EntryReason, CollisionReason;
  }

  lemma {:induction false} SomeoneGives(fold: Fold, nfc: string -> string, policy: Policy, entries: seq<Entry>, h: Hold)
    requires entries != []
    ensures var last := |entries| - 1;
            (exists i: nat :: Gives(fold, nfc, policy, entries, h, i))
            <==> Gives(fold, nfc, policy, entries, h, last) || exists i: nat :: Gives(fold, nfc, policy, entries[..last], h, i)
  {
    hide Gives;
    var last := |entries| - 1;
    if i: nat :| Gives(fold, nfc, policy, entries, h, i) {
      GivesWithin(fold, nfc, policy, entries, h, i);
      if i < last { GivesBefore(fold, nfc, policy, entries, h, i); }
    }
    if i: nat :| Gives(fold, nfc, policy, entries[..last], h, i) {
      GivesWithin(fold, nfc, policy, entries[..last], h, i);
      GivesBefore(fold, nfc, policy, entries, h, i);
    }
  }

  lemma {:induction false} NobodyGives(fold: Fold, nfc: string -> string, policy: Policy, h: Hold, i: nat)
    ensures !Gives(fold, nfc, policy, [], h, i)
  {}

  lemma {:induction false} WalkHoldIff(fold: Fold, nfc: string -> string, policy: Policy, entries: seq<Entry>, h: Hold)
    ensures h in WalkHolds(fold, nfc, policy, entries) <==> exists i: nat :: Gives(fold, nfc, policy, entries, h, i)
  {
    hide Gives;
    if entries == [] {
      forall i: nat ensures !Gives(fold, nfc, policy, entries, h, i) { NobodyGives(fold, nfc, policy, h, i); }
    } else {
      hide WalkHolds;
      GivesLast(fold, nfc, policy, entries, h);
      SomeoneGives(fold, nfc, policy, entries, h);
      WalkHoldIff(fold, nfc, policy, entries[..|entries| - 1], h);
    }
  }

  lemma {:induction false} GivesWithin(fold: Fold, nfc: string -> string, policy: Policy, entries: seq<Entry>, h: Hold, i: nat)
    requires Gives(fold, nfc, policy, entries, h, i)
    ensures i < |entries|
  {}

  /**
   A file whose path something else uses as a directory. The first file under the key names it, and a
   collision reported already does not count.
   */
  ghost predicate ConflictReason(fold: Fold, entries: seq<Entry>, name: string, i: nat) {
    && i < |entries| && entries[i].kind.File? && Placed(entries[i]) && entries[i].name == name
    && var key := CollisionKey(fold, PathOf(entries[i]));
       && (forall j :: 0 <= j < i && entries[j].kind.File? && Placed(entries[j]) ==> CollisionKey(fold, PathOf(entries[j])) != key)
       && key in DirectoryKeys(fold, entries) && key !in Collided(fold, entries)
  }

  lemma {:induction false} UseIff(fold: Fold, entries: seq<Entry>, key: string, name: string)
    ensures (key, name) in FileUses(fold, entries)
            <==> exists i: nat :: FirstUse(fold, entries, key, name, i)
  {
    hide CollisionKey, PathOf, Placed, FirstUse, FileKeys;
    if entries == [] {
      forall i: nat ensures !FirstUse(fold, entries, key, name, i) {
        if FirstUse(fold, entries, key, name, i) { UseWithin(fold, entries, key, name, i); }
      }
    } else {
      var last := |entries| - 1;
      var rest := entries[..last];
      UseIff(fold, rest, key, name);
      LastUse(fold, entries, key, name);
      if i: nat :| FirstUse(fold, entries, key, name, i) {
        UseWithin(fold, entries, key, name, i);
        if i < last { UseBefore(fold, entries, key, name, i); }
      }
      if i: nat :| FirstUse(fold, rest, key, name, i) {
        UseWithin(fold, rest, key, name, i);
        UseBefore(fold, entries, key, name, i);
      }
    }
  }

  lemma {:induction false} UseWithin(fold: Fold, entries: seq<Entry>, key: string, name: string, i: nat)
    requires FirstUse(fold, entries, key, name, i)
    ensures i < |entries|
  {}

  lemma {:induction false} UseBefore(fold: Fold, entries: seq<Entry>, key: string, name: string, i: nat)
    requires i < |entries| - 1
    ensures FirstUse(fold, entries, key, name, i) <==> FirstUse(fold, entries[..|entries| - 1], key, name, i)
  {
    hide CollisionKey, PathOf, Placed;
  }

  lemma {:induction false} LastUse(fold: Fold, entries: seq<Entry>, key: string, name: string)
    requires entries != []
    ensures var last := |entries| - 1;
            FirstUse(fold, entries, key, name, last)
            <==> entries[last].kind.File? && Placed(entries[last]) && CollisionKey(fold, PathOf(entries[last])) == key
                 && key !in FileKeys(fold, entries[..last]) && entries[last].name == name
  {
    hide CollisionKey, PathOf, Placed, FileKeys;
    FileKeyIff(fold, entries[..|entries| - 1], key);
  }

  ghost predicate FirstUse(fold: Fold, entries: seq<Entry>, key: string, name: string, i: nat) {
    && i < |entries| && entries[i].kind.File? && Placed(entries[i]) && entries[i].name == name
    && CollisionKey(fold, PathOf(entries[i])) == key
    && forall j :: 0 <= j < i && entries[j].kind.File? && Placed(entries[j]) ==> CollisionKey(fold, PathOf(entries[j])) != key
  }

  lemma {:induction false} FileKeyIff(fold: Fold, entries: seq<Entry>, key: string)
    ensures key in FileKeys(fold, entries)
            <==> exists j :: 0 <= j < |entries| && entries[j].kind.File? && Placed(entries[j]) && CollisionKey(fold, PathOf(entries[j])) == key
  {
    hide CollisionKey, PathOf, Placed;
    if j :| 0 <= j < |entries| && entries[j].kind.File? && Placed(entries[j]) && CollisionKey(fold, PathOf(entries[j])) == key {
      assert entries[j] in entries;
    }
  }

  lemma {:induction false} ConflictsHold(uses: seq<(string, string)>, directories: set<string>, collided: set<string>, h: Hold)
    ensures h in Conflicts(uses, directories, collided)
            <==> h.code == PathConflict && h.member.Some?
                 && exists key :: (key, h.member.value) in uses && key in directories && key !in collided
  {
    if uses == [] {
    } else {
      var last := |uses| - 1;
      ConflictsHold(uses[..last], directories, collided, h);
      assert forall u :: u in uses <==> u in uses[..last] || u == uses[last];
    }
  }

  lemma {:induction false} ConflictIff(fold: Fold, entries: seq<Entry>, h: Hold)
    ensures h in Conflicts(FileUses(fold, entries), DirectoryKeys(fold, entries), Collided(fold, entries))
            <==> h.code == PathConflict && h.member.Some? && exists i: nat :: ConflictReason(fold, entries, h.member.value, i)
  {
    hide FileUses, DirectoryKeys, Collided, CollisionKey, PathOf, Placed;
    ConflictsHold(FileUses(fold, entries), DirectoryKeys(fold, entries), Collided(fold, entries), h);
    if h.member.Some? {
      var name := h.member.value;
      forall key ensures (key, name) in FileUses(fold, entries) <==> exists i: nat :: FirstUse(fold, entries, key, name, i) {
        UseIff(fold, entries, key, name);
      }
      if key :| (key, name) in FileUses(fold, entries) && key in DirectoryKeys(fold, entries) && key !in Collided(fold, entries) {
        var i: nat :| FirstUse(fold, entries, key, name, i);
        assert ConflictReason(fold, entries, name, i);
      }
      if i: nat :| ConflictReason(fold, entries, name, i) {
        assert FirstUse(fold, entries, CollisionKey(fold, PathOf(entries[i])), name, i);
      }
    }
  }

  /** What is wrong with the archive as a whole. */
  ghost predicate ArchiveReason(code: Code, input: Input) {
    match code
    case NestingDepthExceeded => input.depth > input.policy.maxNestedDepth
    case MemberCountExceeded => |input.entries| > input.policy.maxMemberCount
    case TotalUncompressedExceeded => Total(input.entries) > input.policy.maxTotal
    case CompressionRatioExceeded =>
      Total(input.entries) as real > input.policy.maxRatio * (if input.archiveBytes > 1 then input.archiveBytes else 1) as real
    case _ => false
  }

  lemma {:induction false} RatioIff(declared: nat, archiveBytes: nat, maxRatio: real)
    ensures WithinRatio(declared, archiveBytes, maxRatio)
            <==> declared as real <= maxRatio * (if archiveBytes > 1 then archiveBytes else 1) as real
  {
    var bytes := (if archiveBytes > 1 then archiveBytes else 1) as real;
    assert declared as real / bytes * bytes == declared as real;
    if declared as real / bytes <= maxRatio {
      assert declared as real / bytes * bytes <= maxRatio * bytes;
    } else {
      assert declared as real / bytes * bytes > maxRatio * bytes;
    }
  }

  lemma {:induction false} ScopeHoldIff(input: Input, h: Hold)
    ensures h in ScopeHolds(input) || h in ExpansionHolds(input, Total(input.entries))
            <==> h.member == None && ArchiveReason(h.code, input)
  {
    RatioIff(Total(input.entries), input.archiveBytes, input.policy.maxRatio);
    hide WithinRatio, Total;
  }

  /** Every hold is reported exactly for its own reason, with the name of a member that gives it or none. */
  lemma {:induction false} HoldIffReason(fold: Fold, nfc: string -> string, input: Input, h: Hold)
    ensures h in AllHolds(fold, nfc, input) <==>
              || (h.member == None && ArchiveReason(h.code, input))
              || (exists i: nat :: Gives(fold, nfc, input.policy, input.entries, h, i))
              || (h.code == PathConflict && h.member.Some? && exists i: nat :: ConflictReason(fold, input.entries, h.member.value, i))
  {
    hide WalkHolds, Conflicts, FileUses, DirectoryKeys, Collided, ScopeHolds, ExpansionHolds, Total, Gives, ConflictReason, ArchiveReason;
    ScopeHoldIff(input, h);
    WalkHoldIff(fold, nfc, input.policy, input.entries, h);
    ConflictIff(fold, input.entries, h);
  }
}
