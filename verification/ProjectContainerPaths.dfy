/** Which directory a marker stands for and what it is called, said of the segments of its path. */
module ProjectContainerPaths {
  import opened Ordering
  import opened Text
  import opened MemberPaths
  import opened ProjectContainers

  /** The directories of CI definitions. */
  predicate IsCi(segment: string) {
    segment == ".github" || segment == ".circleci"
  }

  /** A directory as the model writes it: an archive's member root keeps its separator. */
  function DirectoryText(segments: seq<string>): string {
    var joined := Join(segments, "/");
    if EndsWith(joined, "!") then joined + "/" else joined
  }

  lemma {:induction false} JoinLast(segments: seq<string>, last: string)
    requires segments != []
    ensures Join(segments + [last], "/") == Join(segments, "/") + "/" + last
  {
    if |segments| == 1 {
      assert (segments + [last])[1..] == [last];
    } else {
      JoinLast(segments[1..], last);
      assert (segments + [last])[1..] == segments[1..] + [last];
      var inner := Join(segments[1..], "/");
      assert segments[0] + "/" + (inner + "/" + last) == segments[0] + "/" + inner + "/" + last;
    }
  }

  lemma {:induction false} LastIs(s: string, c: char, r: int)
    requires -1 <= r < |s| && (r >= 0 ==> s[r] == c) && forall i :: r < i < |s| ==> s[i] != c
    ensures LastIndexOf(s, c) == r
  {
    hide LastIndexOf;
  }

  lemma {:induction false} ContainerIs(segments: seq<string>, name: string)
    requires '/' !in name && name != ""
    ensures ContainerOf(Join(segments + [name], "/")) == DirectoryText(segments)
  {
    var path, head := Join(segments + [name], "/"), Join(segments, "/");
    if segments == [] {
      assert segments + [name] == [name];
      LastIs(path, '/', -1);
    } else {
      JoinLast(segments, name);
      forall i | |head| < i < |path| ensures path[i] != '/' { assert path[i] == name[i - |head| - 1]; }
      LastIs(path, '/', |head|);
      assert path[..|head|] == head && path[|path| - 1] == name[|name| - 1] != '/';
      SlashEnds(path);
      hide LastIndexOf;
    }
  }

  lemma {:induction false} CiSegmentIs(segments: seq<string>, k: int)
    requires -1 <= k < |segments| && (k >= 0 ==> IsCi(segments[k])) && forall i :: k < i < |segments| ==> !IsCi(segments[i])
    ensures CiSegment(segments) == k
  {
    if segments == [] || k == |segments| - 1 {
    } else {
      CiSegmentIs(segments[..|segments| - 1], k);
    }
  }

  lemma {:induction false} SplitDirectory(segments: seq<string>)
    requires segments != [] && HoldsNone(segments, '/')
    ensures SplitOn(DirectoryText(segments), '/') == segments + if EndsWith(Join(segments, "/"), "!") then [""] else []
  {
    hide SplitOn;
    SplitJoined(segments, '/');
    if EndsWith(Join(segments, "/"), "!") {
      JoinLast(segments, "");
      assert Join(segments, "/") + "/" + "" == Join(segments, "/") + "/";
      SplitJoined(segments + [""], '/');
    } else {
      assert segments + [] == segments;
    }
  }

  /**
   A manifest stands for its own directory. A CI definition stands for the directory that holds the
   innermost `.github` or `.circleci` on its path; `k` is where that is, or the number of directories.
   */
  lemma {:induction false} MarkerContainerIs(segments: seq<string>, name: string, k: nat)
    requires HoldsNone(segments, '/') && '/' !in name && name != "" && k <= |segments|
    requires k < |segments| ==> IsCi(segments[k]) && forall i :: k < i < |segments| ==> !IsCi(segments[i])
    requires k == |segments| ==> forall i :: 0 <= i < |segments| ==> !IsCi(segments[i])
    ensures ProjectContainerForMarker(Join(segments + [name], "/")) == DirectoryText(segments[..k])
  {
    hide ContainerOf, SplitOn, CiSegment, Join;
    ContainerIs(segments, name);
    var all := SplitOn(DirectoryText(segments), '/');
    if segments == [] {
      NoDirectory();
      CiSegmentIs(all, -1);
      assert segments[..k] == [];
    } else {
      SplitDirectory(segments);
      CiSegmentIs(all, if k < |segments| then k else -1);
      assert k < |segments| ==> all[..k] == segments[..k];
      assert k == |segments| ==> segments[..k] == segments;
    }
  }

  lemma {:induction false} NoDirectory()
    ensures DirectoryText([]) == "" && SplitOn("", '/') == [""]
  {}

  // ---------- names ----------

  predicate IsSeparators(s: string) {
    forall i :: 0 <= i < |s| ==> s[i] == '!' || s[i] == '/'
  }

  lemma {:induction false} TrimsSeparators(s: string, tail: string)
    requires IsSeparators(tail) && s != "" && s[|s| - 1] != '!' && s[|s| - 1] != '/'
    ensures TrimSeparators(s + tail) == s
  {
    if tail == "" {
      assert s + tail == s;
    } else {
      assert (s + tail)[..|s + tail| - 1] == s + tail[..|tail| - 1];
      TrimsSeparators(s, tail[..|tail| - 1]);
    }
  }

  /** A container is called by the last directory on its path, archive marks and slashes behind it aside. */
  lemma {:induction false} ContainerNameIs(segments: seq<string>, name: string, tail: string)
    requires '/' !in name && name != "" && name[|name| - 1] != '!' && IsSeparators(tail)
    ensures ContainerName(Join(segments + [name], "/") + tail) == name
  {
    hide TrimSeparators;
    var path, head := Join(segments + [name], "/"), Join(segments, "/");
    if segments == [] {
      assert segments + [name] == [name];
      TrimsSeparators(path, tail);
      LastIs(path, '/', -1);
    } else {
      JoinLast(segments, name);
      assert path[|path| - 1] == name[|name| - 1];
      TrimsSeparators(path, tail);
      forall i | |head| < i < |path| ensures path[i] != '/' { assert path[i] == name[i - |head| - 1]; }
      LastIs(path, '/', |head|);
      assert path[|head| + 1..] == name;
    }
  }

  /** A path of separators alone, a root's own, has no name. */
  lemma {:induction false} RootHasNoName(tail: string)
    requires IsSeparators(tail)
    ensures ContainerName(tail) == ""
  {
    if tail == "" {
    } else {
      RootHasNoName(tail[..|tail| - 1]);
    }
  }

  // ---------- what a container claims ----------

  lemma {:induction false} JoinParts(a: seq<string>, b: seq<string>)
    requires a != [] && b != []
    ensures Join(a + b, "/") == Join(a, "/") + "/" + Join(b, "/")
  {
    if |a| == 1 {
      assert a + b == [a[0]] + b;
      JoinMore(a[0], b, "/");
    } else {
      JoinParts(a[1..], b);
      assert a + b == [a[0]] + (a[1..] + b) && a == [a[0]] + a[1..];
      JoinMore(a[0], a[1..] + b, "/");
      JoinMore(a[0], a[1..], "/");
      var x, y := Join(a[1..], "/"), Join(b, "/");
      assert a[0] + "/" + (x + "/" + y) == a[0] + "/" + x + "/" + y;
    }
  }

  lemma {:induction false} JoinNotSlashed(a: seq<string>)
    requires a != [] && HoldsNone(a, '/') && a[|a| - 1] != ""
    ensures Join(a, "/") != "" && !EndsWith(Join(a, "/"), "/")
  {
    if |a| == 1 {
      SlashEnds(a[0]);
    } else {
      var front := a[..|a| - 1];
      assert a == front + [a[|a| - 1]];
      JoinLast(front, a[|a| - 1]);
      SlashEnds(Join(a, "/"));
      assert Join(a, "/")[|Join(a, "/")| - 1] == a[|a| - 1][|a[|a| - 1]| - 1];
    }
  }

  lemma {:induction false} PrefixOfParts(a: seq<string>, b: seq<string>, rest: string)
    requires a != [] && b != [] && HoldsNone(a, '/') && HoldsNone(b, '/') && Join(b, "/") == Join(a, "/") + "/" + rest
    ensures a <= b
  {
    var tail := SplitOn(rest, '/');
    PartsHoldNone(rest, '/');
    JoinedSplit(rest, '/');
    JoinParts(a, tail);
    SplitJoined(a + tail, '/');
    SplitJoined(b, '/');
    hide SplitOn, Join;
  }

  /** A container claims the paths whose directories begin with its own, whole names at a time; the root claims everything. */
  lemma {:induction false} UnderIff(a: seq<string>, b: seq<string>)
    requires HoldsNone(a, '/') && HoldsNone(b, '/') && b != [] && (a != [] ==> a[|a| - 1] != "")
    ensures IsUnderContainer(Join(a, "/"), Join(b, "/")) <==> a <= b
  {
    if a == [] {
    } else {
      JoinNotSlashed(a);
      hide SplitOn, Join, EndsWith;
      var x, y := Join(a, "/"), Join(b, "/");
      if StartsWith(y, x + "/") {
        assert y == x + "/" + y[|x| + 1..];
        PrefixOfParts(a, b, y[|x| + 1..]);
      }
      if y == x {
        SplitJoined(a, '/');
        SplitJoined(b, '/');
      }
      if a <= b && a != b {
        assert b == a + b[|a|..];
        JoinParts(a, b[|a|..]);
        assert y[..|x + "/"|] == x + "/";
      }
    }
  }

  // ---------- keys ----------

  lemma {:induction false} SortedFirst(s: seq<string>)
    requires s != []
    ensures Sort(s, AtMost) != [] && Sort(s, AtMost)[0] in s
    ensures forall x :: x in s ==> AtMost(Sort(s, AtMost)[0], x)
  {
    SortKeepsMembers(s, AtMost);
    AtMostIsTotalPreorder();
    SortOrders(s, AtMost);
    hide Sort, AtMost;
    var sorted := Sort(s, AtMost);
    forall x | x in s ensures AtMost(sorted[0], x) {
      var i :| 0 <= i < |sorted| && sorted[i] == x;
    }
  }

  ghost predicate IsLeast(d: string, s: seq<string>) {
    d in s && forall x :: x in s ==> AtMost(d, x)
  }

  /** The least declared identifier names the project; without one the directory does, and a bare root its label. */
  lemma {:induction false} KeyIs(containers: map<Slot, Container>, labels: map<string, string>, s: Slot)
    requires s in containers
    ensures containers[s].declared != [] ==>
              exists d :: IsLeast(d, containers[s].declared) && KeyOf(containers, labels, s) == "project:" + d
    ensures containers[s].declared == [] && ContainerName(s.1) != "" ==> KeyOf(containers, labels, s) == "container:" + ContainerName(s.1)
    ensures containers[s].declared == [] && ContainerName(s.1) == "" ==>
              KeyOf(containers, labels, s) == "root:" + if s.0 in labels then labels[s.0] else s.0
  {
    hide AtMost, ContainerName;
    var declared := containers[s].declared;
    if declared != [] {
      SortedFirst(declared);
      hide Sort;
      assert IsLeast(Sort(declared, AtMost)[0], declared);
    } else {
      assert Sort(declared, AtMost) == [];
    }
  }
}
