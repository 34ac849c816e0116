/** Archive member names as paths: normalisation, containment and the per-name rules of src/archive_preflight.ts. */
module MemberPaths {
  import Ordering
  import opened Text

  // ---------- segments ----------

  function SplitOn(s: string, c: char): (parts: seq<string>)
    ensures |parts| >= 1
    decreases |s|
  {
    var at := Find(s, c, 0);
    if at == |s| then [s] else [s[..at]] + SplitOn(s[at + 1..], c)
  }

  predicate HoldsNone(parts: seq<string>, c: char) {
    forall i :: 0 <= i < |parts| ==> c !in parts[i]
  }

  lemma {:induction false} PartsHoldNone(s: string, c: char)
    ensures HoldsNone(SplitOn(s, c), c)
    decreases |s|
  {
    var at := Find(s, c, 0);
    if at == |s| {
    } else {
      PartsHoldNone(s[at + 1..], c);
    }
  }

  lemma {:induction false} SplitFirstPart(part: string, rest: string, c: char)
    requires c !in part
    ensures SplitOn(part + [c] + rest, c) == [part] + SplitOn(rest, c)
  {
    var s := part + [c] + rest;
    forall i | 0 <= i < |part| ensures s[i] != c { assert s[i] == part[i]; }
    FindUnique(s, c, 0, |part|);
    assert s[..|part|] == part && s[|part| + 1..] == rest;
  }

  lemma {:induction false} SplitWhole(part: string, c: char)
    requires c !in part
    ensures SplitOn(part, c) == [part]
  {
    FindUnique(part, c, 0, |part|);
  }

  /** Splitting undoes joining. */
  lemma {:induction false} SplitJoined(parts: seq<string>, c: char)
    requires parts != [] && HoldsNone(parts, c)
    ensures SplitOn(Join(parts, [c]), c) == parts
    decreases |parts|
  {
    hide SplitOn;
    if |parts| == 1 {
      SplitWhole(parts[0], c);
    } else {
      SplitJoined(parts[1..], c);
      SplitFirstPart(parts[0], Join(parts[1..], [c]), c);
      assert parts == [parts[0]] + parts[1..];
    }
  }

  lemma {:induction false} JoinHolds(parts: seq<string>, separator: string, c: char)
    requires c !in separator && HoldsNone(parts, c)
    ensures c !in Join(parts, separator)
  {
    if |parts| <= 1 {
    } else {
      JoinHolds(parts[1..], separator, c);
    }
  }

  // ---------- the canonical path ----------

  function Slashes(name: string): (r: string)
    ensures |r| == |name|
  {
    seq(|name|, i requires 0 <= i < |name| => if name[i] == '\\' then '/' else name[i])
  }

  predicate IsStep(segment: string) {
    segment != "" && segment != "."
  }

  /** The segments that name something, in order. */
  function Steps(segments: seq<string>): (steps: seq<string>)
    ensures forall i :: 0 <= i < |steps| ==> IsStep(steps[i]) && steps[i] in segments
    ensures forall i :: 0 <= i < |segments| && IsStep(segments[i]) ==> segments[i] in steps
  {
    if segments == [] then []
    else if IsStep(segments[0]) then [segments[0]] + Steps(segments[1..])
    else Steps(segments[1..])
  }

  function CanonicalMemberPath(name: string): string {
    var normalized := Slashes(name);
    var canonical := Join(Steps(SplitOn(normalized, '/')), "/");
    if StartsWith(normalized, "/") then "/" + canonical else canonical
  }

  lemma {:induction false} StepsArePicked(segments: seq<string>) returns (at: seq<nat>)
    ensures Ordering.Picks(segments, IsStep, at) && Steps(segments) == Ordering.Selected(segments, at)
  {
    hide IsStep;
    if segments == [] {
      at := [];
      Ordering.PicksNone(IsStep);
    } else {
      var rest := StepsArePicked(segments[1..]);
      at := (if IsStep(segments[0]) then [0] else []) + Ordering.Shifted(rest);
      Ordering.PicksMore(segments, IsStep, rest);
    }
  }

  lemma {:induction false} SlashFirst(name: string)
    ensures StartsWith(Slashes(name), "/") <==> name != "" && (name[0] == '/' || name[0] == '\\')
  {
    if name != "" { assert Slashes(name)[..1][0] == Slashes(name)[0]; }
  }

  /** The canonical path keeps, in order, the components that name something, either slash between them, and a leading slash. */
  lemma {:induction false} CanonicalKeepsTheNames(name: string) returns (parts: seq<string>, at: seq<nat>)
    ensures Join(parts, "/") == Slashes(name) && HoldsNone(parts, '/') && Ordering.Picks(parts, IsStep, at)
    ensures CanonicalMemberPath(name)
            == (if name != "" && (name[0] == '/' || name[0] == '\\') then "/" else "") + Join(Ordering.Selected(parts, at), "/")
  {
    hide SplitOn, Join, Slashes, Steps, IsStep;
    var normalized := Slashes(name);
    parts := SplitOn(normalized, '/');
    PartsHoldNone(normalized, '/');
    JoinedSplit(normalized, '/');
    at := StepsArePicked(parts);
    SlashFirst(name);
    assert "" + Join(Steps(parts), "/") == Join(Steps(parts), "/");
  }

  /** Joining undoes splitting. */
  lemma {:induction false} JoinedSplit(s: string, c: char)
    ensures Join(SplitOn(s, c), [c]) == s
    decreases |s|
  {
    var at := Find(s, c, 0);
    if at == |s| {
    } else {
      JoinedSplit(s[at + 1..], c);
      JoinMore(s[..at], SplitOn(s[at + 1..], c), [c]);
      assert s == s[..at] + [c] + s[at + 1..];
    }
  }

  lemma {:induction false} StepsOfSteps(segments: seq<string>)
    requires forall i :: 0 <= i < |segments| ==> IsStep(segments[i])
    ensures Steps(segments) == segments
  {
    if segments == [] {
    } else {
      StepsOfSteps(segments[1..]);
    }
  }

  lemma {:induction false} StepsHoldNone(name: string)
    ensures HoldsNone(Steps(SplitOn(Slashes(name), '/')), '/')
    ensures HoldsNone(Steps(SplitOn(Slashes(name), '/')), '\\')
  {
    var segments := SplitOn(Slashes(name), '/');
    PartsHoldNone(Slashes(name), '/');
    PartsWithin(Slashes(name), '/', '\\');
    hide SplitOn, Slashes;
    forall i | 0 <= i < |Steps(segments)| ensures '/' !in Steps(segments)[i] && '\\' !in Steps(segments)[i] {
      var k :| 0 <= k < |segments| && segments[k] == Steps(segments)[i];
    }
  }

  /** A character the text does not hold, its parts do not hold. */
  lemma {:induction false} PartsWithin(s: string, c: char, x: char)
    requires x !in s
    ensures HoldsNone(SplitOn(s, c), x)
    decreases |s|
  {
    var at := Find(s, c, 0);
    if at == |s| {
    } else {
      PartsWithin(s[at + 1..], c, x);
    }
  }

  lemma {:induction false} JoinNonEmpty(parts: seq<string>, separator: string)
    requires forall i :: 0 <= i < |parts| ==> parts[i] != []
    ensures Join(parts, separator) == [] <==> parts == []
  {}

  lemma {:induction false} JoinStartsWithNone(parts: seq<string>, c: char)
    requires parts != [] && parts[0] != [] && c !in parts[0]
    ensures !StartsWith(Join(parts, [c]), [c])
  {
    assert Join(parts, [c])[0] == parts[0][0];
  }

  /** A relative canonical path splits into exactly the segments that name something. */
  lemma {:induction false} CanonicalSegments(name: string)
    requires !StartsWith(Slashes(name), "/") && CanonicalMemberPath(name) != []
    ensures SplitOn(CanonicalMemberPath(name), '/') == Steps(SplitOn(Slashes(name), '/'))
    ensures Steps(SplitOn(Slashes(name), '/')) != []
  {
    StepsHoldNone(name);
    hide SplitOn, Slashes;
    JoinNonEmpty(Steps(SplitOn(Slashes(name), '/')), "/");
    SplitJoined(Steps(SplitOn(Slashes(name), '/')), '/');
  }

  lemma {:induction false} SlashesOnly(s: string)
    requires '\\' !in s
    ensures Slashes(s) == s
  {
    assert forall i :: 0 <= i < |s| ==> s[i] in s;
  }

  /** What normalisation leaves: named segments without separators. */
  predicate AllSteps(steps: seq<string>) {
    HoldsNone(steps, '/') && HoldsNone(steps, '\\') && forall i :: 0 <= i < |steps| ==> IsStep(steps[i])
  }

  lemma {:induction false} StepsOfJoined(steps: seq<string>)
    requires AllSteps(steps)
    ensures Steps(SplitOn(Join(steps, "/"), '/')) == steps
    ensures '\\' !in Join(steps, "/") && !StartsWith(Join(steps, "/"), "/")
  {
    JoinHolds(steps, "/", '\\');
    if steps == [] {
      FindUnique([], '/', 0, 0);
      assert SplitOn([], '/') == [""];
    } else {
      hide SplitOn;
      SplitJoined(steps, '/');
      StepsOfSteps(steps);
      JoinStartsWithNone(steps, '/');
    }
  }

  lemma {:induction false} RelativeAgain(steps: seq<string>)
    requires AllSteps(steps)
    ensures CanonicalMemberPath(Join(steps, "/")) == Join(steps, "/")
  {
    StepsOfJoined(steps);
    SlashesOnly(Join(steps, "/"));
    hide SplitOn, Steps, Slashes, Join;
  }

  lemma {:induction false} AbsoluteAgain(steps: seq<string>)
    requires AllSteps(steps)
    ensures CanonicalMemberPath("/" + Join(steps, "/")) == "/" + Join(steps, "/")
  {
    StepsOfJoined(steps);
    var joined := Join(steps, "/");
    hide SplitOn, Slashes, Join, AllSteps;
    SlashesOnly("/" + joined);
    SplitFirstPart([], joined, '/');
    assert [] + ['/'] + joined == "/" + joined;
    assert ([""] + SplitOn(joined, '/'))[1..] == SplitOn(joined, '/');
    assert Steps([""] + SplitOn(joined, '/')) == Steps(SplitOn(joined, '/'));
  }

  /** Normalisation is idempotent: a canonical path is its own canonical path. */
  lemma {:induction false} CanonicalIsIdempotent(name: string)
    ensures CanonicalMemberPath(CanonicalMemberPath(name)) == CanonicalMemberPath(name)
  {
    var steps := Steps(SplitOn(Slashes(name), '/'));
    StepsHoldNone(name);
    assert CanonicalMemberPath(name) == Join(steps, "/") || CanonicalMemberPath(name) == "/" + Join(steps, "/");
    hide SplitOn, Slashes, Join, CanonicalMemberPath;
    RelativeAgain(steps);
    AbsoluteAgain(steps);
  }

  // ---------- containment ----------

  function Move(segment: string): int {
    if !IsStep(segment) then 0 else if segment == ".." then -1 else 1
  }

  /** How far below the root the segments lead. */
  function Level(segments: seq<string>): int {
    if segments == [] then 0 else Level(segments[..|segments| - 1]) + Move(segments[|segments| - 1])
  }

  /** Never above the root on the way, and below it in the end. */
  predicate Inside(canonical: string) {
    var segments := SplitOn(canonical, '/');
    (forall k :: 0 <= k <= |segments| ==> Level(segments[..k]) >= 0) && Level(segments) > 0
  }

  /** The routine itself: a stack that grows by a name and shrinks by a `..`. */
  method ResolvesInsideRoot(canonical: string) returns (inside: bool)
    ensures inside == Inside(canonical)
  {
    var segments, stack, k := SplitOn(canonical, '/'), [], 0;
    assert segments[..|segments|] == segments;
    while k < |segments|
      invariant 0 <= k <= |segments| && |stack| == Level(segments[..k])
      invariant forall j :: 0 <= j <= k ==> Level(segments[..j]) >= 0
    {
      assert segments[..k + 1][..k] == segments[..k];
      if segments[k] == "" || segments[k] == "." {
      } else if segments[k] == ".." {
        if |stack| == 0 { return false; }
        stack := stack[..|stack| - 1];
      } else {
        stack := stack + [segments[k]];
      }
      k := k + 1;
    }
    return |stack| > 0;
  }

  lemma {:induction false} LevelWithoutParents(segments: seq<string>)
    requires ".." !in segments
    ensures Level(segments) >= 0
    ensures Level(segments) > 0 <==> exists i :: 0 <= i < |segments| && IsStep(segments[i])
  {
    if segments == [] {
    } else {
      var last := |segments| - 1;
      assert segments[last] in segments;
      LevelWithoutParents(segments[..last]);
      assert forall i :: 0 <= i < last ==> segments[..last][i] == segments[i];
    }
  }

  /** Without a `..`, a path stays inside the root as soon as it names anything. */
  lemma {:induction false} InsideWithoutParents(canonical: string)
    requires ".." !in SplitOn(canonical, '/')
    ensures Inside(canonical) <==> exists i :: 0 <= i < |SplitOn(canonical, '/')| && IsStep(SplitOn(canonical, '/')[i])
  {
    var segments := SplitOn(canonical, '/');
    hide SplitOn;
    LevelWithoutParents(segments);
    forall k | 0 <= k <= |segments| ensures Level(segments[..k]) >= 0 {
      LevelWithoutParents(segments[..k]);
    }
  }

  // ---------- lengths ----------

  /** Length in UTF-16 code units, which is how the language counts. */
  function UnitLength(s: string): nat {
    if s == [] then 0 else (if s[0] > '\U{FFFF}' then 2 else 1) + UnitLength(s[1..])
  }

  function ByteLength(s: string): nat {
    if s == [] then 0 else (if s[0] <= '\U{7F}' then 1 else if s[0] <= '\U{7FF}' then 2 else if s[0] <= '\U{FFFF}' then 3 else 4)
                           + ByteLength(s[1..])
  }

  const MAX_SEGMENT_BYTES := 255

  predicate FitsFilesystem(canonical: string) {
    forall i :: 0 <= i < |SplitOn(canonical, '/')| ==> ByteLength(SplitOn(canonical, '/')[i]) <= MAX_SEGMENT_BYTES
  }

  // ---------- the path rules ----------

  datatype Code =
    | PathNul | PathUnc | PathAbsolute | PathDriveAbsolute | PathTraversal | PathEmpty | PathTooLong | PathEscapesRoot
    | EntrySymlink | EntrySpecial | EntryKindUnknown | MemberEncrypted | CompressionUnsupported | MemberTooLarge
    | DuplicateMember | UnicodeCollision | CaseCollision | PathConflict
    | NestingDepthExceeded | MemberCountExceeded | TotalUncompressedExceeded | CompressionRatioExceeded

  datatype Hold = Hold(code: Code, member: Option<string>)

  predicate IsDriveAbsolute(raw: string) {
    |raw| >= 3 && ('A' <= raw[0] <= 'Z' || 'a' <= raw[0] <= 'z') && raw[1] == ':' && (raw[2] == '\\' || raw[2] == '/')
  }

  function If(condition: bool, code: Code, raw: string): seq<Hold> {
    if condition then [Hold(code, Some(raw))] else []
  }

  function PathHolds(canonical: string, raw: string, maxPathLength: nat): seq<Hold> {
    var normalized := Slashes(raw);
    var unc := StartsWith(raw, "\\\\") || StartsWith(normalized, "//");
    If('\U{0}' in raw, PathNul, raw)
    + (if unc then [Hold(PathUnc, Some(raw))] else If(StartsWith(normalized, "/"), PathAbsolute, raw))
    + If(IsDriveAbsolute(raw), PathDriveAbsolute, raw)
    + If(".." in SplitOn(normalized, '/'), PathTraversal, raw)
    + If(canonical == [], PathEmpty, raw)
    + If(UnitLength(raw) > maxPathLength || !FitsFilesystem(canonical), PathTooLong, raw)
    + If(canonical != [] && !Inside(canonical), PathEscapesRoot, raw)
  }

  /** What a member name must be, said without the walk over a virtual root. */
  predicate PathSafe(raw: string, maxPathLength: nat) {
    && '\U{0}' !in raw && UnitLength(raw) <= maxPathLength
    && !IsDriveAbsolute(raw) && !StartsWith(Slashes(raw), "/")
    && ".." !in SplitOn(Slashes(raw), '/')
    && CanonicalMemberPath(raw) != [] && FitsFilesystem(CanonicalMemberPath(raw))
  }

  lemma {:induction false} UncIsAbsolute(raw: string)
    ensures StartsWith(raw, "\\\\") || StartsWith(Slashes(raw), "//") ==> StartsWith(Slashes(raw), "/")
  {
    if StartsWith(raw, "\\\\") {
      assert raw[..2][0] == '\\';
    }
    if StartsWith(Slashes(raw), "//") {
      assert Slashes(raw)[..2][0] == '/';
    }
  }

  lemma {:induction false} SafeIsInside(raw: string)
    requires !StartsWith(Slashes(raw), "/") && CanonicalMemberPath(raw) != [] && ".." !in SplitOn(Slashes(raw), '/')
    ensures Inside(CanonicalMemberPath(raw))
  {
    CanonicalSegments(raw);
    var steps := Steps(SplitOn(Slashes(raw), '/'));
    hide SplitOn, Slashes, CanonicalMemberPath, Inside;
    assert ".." !in steps;
    assert IsStep(steps[0]);
    InsideWithoutParents(CanonicalMemberPath(raw));
  }

  /** The per-name rules hold nothing exactly when the name is safe: the containment walk adds no rule. */
  lemma {:induction false} NoPathHoldIffSafe(raw: string, maxPathLength: nat)
    ensures PathHolds(CanonicalMemberPath(raw), raw, maxPathLength) == [] <==> PathSafe(raw, maxPathLength)
  {
    UncIsAbsolute(raw);
    hide SplitOn, Slashes, CanonicalMemberPath, Inside, FitsFilesystem, UnitLength, StartsWith, IsDriveAbsolute;
    if PathSafe(raw, maxPathLength) { SafeIsInside(raw); }
  }
}
