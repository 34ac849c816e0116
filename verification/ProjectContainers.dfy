/** Containers and their claims, src/corpus_candidates.ts: every artifact belongs to the innermost project that claims it. */
module ProjectContainers {
  import opened Ordering
  import opened Text
  import opened MemberPaths

  // ---------- paths ----------

  predicate EndsWith(s: string, suffix: string) {
    |suffix| <= |s| && s[|s| - |suffix|..] == suffix
  }

  /** A container claims its own path and everything below it; the empty one claims all. */
  predicate IsUnderContainer(container: string, candidate: string) {
    || container == "" || candidate == container
    || StartsWith(candidate, if EndsWith(container, "/") then container else container + "/")
  }

  /** The greatest position of `c`, or -1. */
  function LastIndexOf(s: string, c: char): (r: int)
    ensures -1 <= r < |s|
    ensures r >= 0 ==> s[r] == c
    ensures forall i :: r < i < |s| ==> s[i] != c
  {
    if s == [] then -1 else if s[|s| - 1] == c then |s| - 1 else LastIndexOf(s[..|s| - 1], c)
  }

  /** Directory half of a path; an archive's member root keeps its separator. */
  function ContainerOf(path: string): string {
    var slash := LastIndexOf(path, '/');
    if slash < 0 then ""
    else if EndsWith(path, "/") || slash == 0 then path[..slash]
    else if EndsWith(path[..slash], "!") then path[..slash] + "/" else path[..slash]
  }

  /** The least index of the last `.github` or `.circleci` segment, or -1. */
  function CiSegment(segments: seq<string>): (r: int)
    ensures -1 <= r < |segments|
  {
    if segments == [] then -1
    else if segments[|segments| - 1] == ".github" || segments[|segments| - 1] == ".circleci" then |segments| - 1
    else CiSegment(segments[..|segments| - 1])
  }

  /** A manifest's directory, or the directory that holds a CI definition's dot-directory. */
  function ProjectContainerForMarker(path: string): string {
    var container := ContainerOf(path);
    var segments := SplitOn(container, '/');
    var index := CiSegment(segments);
    if index < 0 then container
    else
      var head := Join(segments[..index], "/");
      if EndsWith(head, "!") then head + "/" else head
  }

  // ---------- claims form a chain ----------

  lemma {:induction false} PrefixOfPrefix(s: string, a: string, b: string)
    requires StartsWith(s, a) && StartsWith(s, b) && |a| <= |b|
    ensures StartsWith(b, a)
  {
    assert b[..|a|] == s[..|b|][..|a|] == s[..|a|];
  }

  lemma {:induction false} SlashEnds(s: string)
    ensures EndsWith(s + "/", "/")
    ensures s != "" && s[|s| - 1] == '/' <==> EndsWith(s, "/")
  {
    assert (s + "/")[|s|..] == "/";
    if s != "" { assert s[|s| - 1..] == [s[|s| - 1]]; }
  }

  /** Of two containers that claim one path, the shorter claims the longer; of one length they are one. */
  lemma {:induction false} ClaimsFormAChain(path: string, a: string, b: string)
    requires IsUnderContainer(a, path) && IsUnderContainer(b, path) && |a| <= |b|
    ensures IsUnderContainer(a, b)
    ensures |a| == |b| ==> a == b
  {
    var a', b' := if EndsWith(a, "/") then a else a + "/", if EndsWith(b, "/") then b else b + "/";
    SlashEnds(a);
    SlashEnds(b);
    hide EndsWith;
    if a != "" && a != b {
      if path == a {
        LongerThanItself(path, b, b');
      } else if path != b {
        PrefixOfPrefix(path, a', if |b'| >= |a'| then b' else path);
        BothPrefixes(path, a, b, a', b');
      }
    }
  }

  lemma {:induction false} LongerThanItself(path: string, b: string, b': string)
    requires |path| <= |b| && (path == b || (StartsWith(path, b') && (b' == b || b' == b + "/")))
    ensures path == b
  {}

  lemma {:induction false} BothPrefixes(path: string, a: string, b: string, a': string, b': string)
    requires StartsWith(path, a') && StartsWith(path, b') && |a| <= |b| && a != b && a != ""
    requires (a' == a && a[|a| - 1] == '/') || (a' == a + "/" && a[|a| - 1] != '/')
    requires b != "" && ((b' == b && b[|b| - 1] == '/') || (b' == b + "/" && b[|b| - 1] != '/'))
    ensures StartsWith(b, a') && |a| < |b|
  {
    assert path[..|a|] == a && path[..|b|] == b by {
      assert path[..|a|] == path[..|a'|][..|a|] && path[..|b|] == path[..|b'|][..|b|];
    }
    assert |a| < |b|;
    assert path[..|a'|] == path[..|b|][..|a'|];
  }

  // ---------- a marker lies under its own container ----------

  lemma {:induction false} SlashSplits(path: string)
    requires LastIndexOf(path, '/') >= 0
    ensures var slash := LastIndexOf(path, '/'); IsUnderContainer(path[..slash], path) && StartsWith(path, path[..slash] + "/")
  {
    var slash := LastIndexOf(path, '/');
    assert path[..slash] + "/" == path[..slash + 1];
    if EndsWith(path[..slash], "/") {
      assert path[..slash] == path[..|path[..slash]|];
    }
  }

  lemma {:induction false} DirectoryHolds(path: string)
    ensures IsUnderContainer(ContainerOf(path), path)
  {
    if LastIndexOf(path, '/') >= 0 {
      SlashSplits(path);
      SlashEnds(path[..LastIndexOf(path, '/')]);
    }
  }

  lemma {:induction false} JoinedPrefix(segments: seq<string>, index: nat)
    requires index < |segments|
    ensures index > 0 ==> StartsWith(Join(segments, "/"), Join(segments[..index], "/") + "/")
    decreases |segments|
  {
    if index == 0 {
    } else {
      var rest := Join(segments[1..], "/");
      assert Join(segments, "/") == segments[0] + "/" + rest;
      if index == 1 {
        assert Join(segments[..1], "/") == segments[0];
        assert (segments[0] + "/" + rest)[..|segments[0] + "/"|] == segments[0] + "/";
      } else {
        JoinedPrefix(segments[1..], index - 1);
        assert segments[..index][1..] == segments[1..][..index - 1];
        var inner := Join(segments[1..][..index - 1], "/");
        assert Join(segments[..index], "/") == segments[0] + "/" + inner;
        assert rest[..|inner| + 1] == inner + "/";
        assert (segments[0] + "/" + rest)[..|segments[0]| + 1 + |inner| + 1] == segments[0] + "/" + rest[..|inner| + 1];
        assert segments[0] + "/" + inner + "/" == segments[0] + "/" + (inner + "/");
      }
    }
  }

  lemma {:induction false} UnderTransitive(a: string, b: string, path: string)
    requires IsUnderContainer(a, b) && IsUnderContainer(b, path)
    ensures IsUnderContainer(a, path)
  {
    if a != "" && a != b && path != b && b != "" {
      var a', b' := if EndsWith(a, "/") then a else a + "/", if EndsWith(b, "/") then b else b + "/";
      assert b[..|a'|] == a';
      assert path[..|b'|] == b';
      assert path[..|a'|] == b'[..|a'|] == b[..|a'|];
    }
  }

  /** Every marker lies under the project container it implies. */
  lemma {:induction false} MarkerLiesInItsContainer(path: string)
    ensures IsUnderContainer(ProjectContainerForMarker(path), path)
  {
    var container := ContainerOf(path);
    var segments := SplitOn(container, '/');
    var index := CiSegment(segments);
    DirectoryHolds(path);
    if index >= 0 {
      JoinedSplit(container, '/');
      JoinedPrefix(segments, index);
      HeadHolds(Join(segments[..index], "/"), index, container);
      hide IsUnderContainer, ContainerOf, SplitOn, Join, EndsWith;
      UnderTransitive(ProjectContainerForMarker(path), container, path);
    }
  }

  lemma {:induction false} HeadHolds(head: string, index: nat, container: string)
    requires index > 0 ==> StartsWith(container, head + "/")
    requires index == 0 ==> head == ""
    ensures IsUnderContainer(if EndsWith(head, "!") then head + "/" else head, container)
  {
    SlashEnds(head);
    if index > 0 { assert container[..|head|] == container[..|head + "/"|][..|head|]; }
  }

  // ---------- containers ----------

  datatype Marker = Marker(id: string, root: string, path: string, declared: Option<string>)

  /** An artifact that may belong to a project. */
  datatype Item = Item(id: string, root: string, path: string)

  /** A root and a container path in it. */
  type Slot = (string, string)

  datatype Container = Container(markerIds: seq<string>, declared: seq<string>)

  function SlotOf(m: Marker): Slot {
    (m.root, ProjectContainerForMarker(m.path))
  }

  /** What the markers of one container add up to. */
  ghost predicate ContainerOk(markers: seq<Marker>, containers: map<Slot, Container>, s: Slot)
    requires s in containers
  {
    && (exists m :: m in markers && SlotOf(m) == s)
    && (forall d :: d in containers[s].declared <==> exists m :: m in markers && SlotOf(m) == s && m.declared == Some(d))
    && (forall id :: id in containers[s].markerIds <==> exists m :: m in markers && SlotOf(m) == s && m.id == id)
  }

  ghost predicate Collected(markers: seq<Marker>, containers: map<Slot, Container>) {
    && (forall m :: m in markers ==> SlotOf(m) in containers)
    && forall s {:trigger ContainerOk(markers, containers, s)} :: s in containers ==> ContainerOk(markers, containers, s)
  }

  function WithMarker(c: Container, m: Marker): Container {
    Container(c.markerIds + [m.id],
              if m.declared.Some? && m.declared.value !in c.declared then c.declared + [m.declared.value] else c.declared)
  }

  lemma {:induction false} CollectOne(markers: seq<Marker>, containers: map<Slot, Container>, m: Marker)
    requires Collected(markers, containers)
    ensures var s := SlotOf(m);
            Collected(markers + [m], containers[s := WithMarker(if s in containers then containers[s] else Container([], []), m)])
  {
    hide ProjectContainerForMarker;
    var s := SlotOf(m);
    var before := if s in containers then containers[s] else Container([], []);
    var grown := containers[s := WithMarker(before, m)];
    var all := markers + [m];
    assert forall x :: x in all <==> x in markers || x == m;
    forall t | t in grown ensures ContainerOk(all, grown, t) {
      if t in containers { assert ContainerOk(markers, containers, t); }
    }
  }

  method CollectContainers(markers: seq<Marker>) returns (containers: map<Slot, Container>, order: seq<Slot>)
    ensures Collected(markers, containers)
    ensures Distinct(order) && forall s :: s in order <==> s in containers
  {
    hide SlotOf, Collected, WithMarker;
    containers, order := map[], [];
    NothingCollected();
    var i := 0;
    while i < |markers|
      invariant 0 <= i <= |markers| && Collected(markers[..i], containers)
      invariant Distinct(order) && forall s :: s in order <==> s in containers
    {
      var m := markers[i];
      assert markers[..i + 1] == markers[..i] + [m];
      CollectOne(markers[..i], containers, m);
      var s := SlotOf(m);
      if s !in containers { order := order + [s]; }
      containers := containers[s := WithMarker(if s in containers then containers[s] else Container([], []), m)];
      i := i + 1;
    }
    assert markers[..i] == markers;
  }

  lemma {:induction false} NothingCollected()
    ensures Collected([], map[])
  {}

  // ---------- owners ----------

  predicate Claims(s: Slot, item: Item) {
    s.0 == item.root && IsUnderContainer(s.1, item.path)
  }

  /** The innermost of the containers that claim an item. */
  ghost predicate Owns(slots: set<Slot>, s: Slot, item: Item) {
    s in slots && Claims(s, item) && forall t :: t in slots && Claims(t, item) ==> |t.1| <= |s.1|
  }

  /** No two containers own one item, and every other claimant contains the owner. */
  lemma {:induction false} OwnerIsUnique(slots: set<Slot>, s: Slot, t: Slot, item: Item)
    requires Owns(slots, s, item) && t in slots && Claims(t, item)
    ensures IsUnderContainer(t.1, s.1)
    ensures Owns(slots, t, item) ==> s == t
  {
    ClaimsFormAChain(item.path, t.1, s.1);
  }

  predicate LongestFirst(a: string, b: string) {
    |a| > |b| || (|a| == |b| && AtMost(a, b))
  }

  lemma {:induction false} LongestFirstOrder()
    ensures TotalPreorder(LongestFirst)
  {
    hide AtMost;
    forall x, y ensures LongestFirst(x, y) || LongestFirst(y, x) { AtMostTotal(x, y); }
    forall x, y, z | LongestFirst(x, y) && LongestFirst(y, z) ensures LongestFirst(x, z) {
      if |x| == |y| == |z| { AtMostTransitive(x, y, z); }
    }
  }

  /** The container paths of one root. */
  function PathsOf(order: seq<Slot>, root: string): (r: seq<string>)
    ensures forall p :: p in r <==> (root, p) in order
  {
    if order == [] then []
    else
      var last := |order| - 1;
      PathsOf(order[..last], root) + if order[last].0 == root then [order[last].1] else []
  }

  /** Each root's container paths, longest first. */
  ghost predicate Bucketed(order: seq<Slot>, byRoot: map<string, seq<string>>) {
    forall root {:trigger PathsOf(order, root)} ::
      (if root in byRoot then byRoot[root] else []) == Sort(PathsOf(order, root), LongestFirst)
  }

  lemma {:induction false} PathsAppend(order: seq<Slot>, s: Slot, root: string)
    ensures PathsOf(order + [s], root) == PathsOf(order, root) + (if s.0 == root then [s.1] else [])
  {
    assert (order + [s])[..|order|] == order;
  }

  method BucketByRoot(order: seq<Slot>) returns (byRoot: map<string, seq<string>>)
    ensures Bucketed(order, byRoot)
  {
    hide Sort, PathsOf;
    NoPaths();
    var raw: map<string, seq<string>> := map[];
    var i := 0;
    while i < |order|
      invariant 0 <= i <= |order|
      invariant forall root {:trigger RawPaths(order[..i], raw, root)} :: RawPaths(order[..i], raw, root)
    {
      var s := order[i];
      assert order[..i + 1] == order[..i] + [s];
      ghost var before, next := raw, order[..i + 1];
      assert RawPaths(order[..i], raw, s.0);
      raw := raw[s.0 := (if s.0 in raw then raw[s.0] else []) + [s.1]];
      forall root ensures RawPaths(next, raw, root) {
        assert RawPaths(order[..i], before, root);
        PathsAppend(order[..i], s, root);
      }
      i := i + 1;
    }
    assert order[..i] == order;
    byRoot := map root | root in raw :: Sort(raw[root], LongestFirst);
    SortNothing();
    forall root ensures (if root in byRoot then byRoot[root] else []) == Sort(PathsOf(order, root), LongestFirst) {
      assert RawPaths(order, raw, root);
    }
  }

  ghost predicate RawPaths(order: seq<Slot>, raw: map<string, seq<string>>, root: string) {
    (if root in raw then raw[root] else []) == PathsOf(order, root)
  }

  lemma {:induction false} NoPaths()
    ensures forall root :: PathsOf([], root) == []
  {}

  lemma {:induction false} SortNothing()
    ensures Sort([], LongestFirst) == []
  {}

  /** The bucket of a root lists the paths of its slots, longest first. */
  lemma {:induction false} BucketHolds(order: seq<Slot>, byRoot: map<string, seq<string>>, root: string)
    requires Bucketed(order, byRoot)
    ensures var bucket := if root in byRoot then byRoot[root] else [];
            && (forall p :: p in bucket <==> (root, p) in order)
            && forall i, j :: 0 <= i < j < |bucket| ==> |bucket[i]| >= |bucket[j]|
  {
    LongestFirstOrder();
    hide AtMost, Sort, PathsOf;
    SortOrders(PathsOf(order, root), LongestFirst);
    SortKeepsMembers(PathsOf(order, root), LongestFirst);
  }

  /** The first of the sorted containers that claims the item is its owner. */
  method FindOwner(ghost order: seq<Slot>, byRoot: map<string, seq<string>>, item: Item) returns (owner: Option<Slot>)
    requires Bucketed(order, byRoot)
    ensures owner.Some? ==> Owns(SlotsOf(order), owner.value, item)
    ensures owner.None? ==> forall s :: s in order ==> !Claims(s, item)
  {
    hide IsUnderContainer, Bucketed;
    BucketHolds(order, byRoot, item.root);
    var bucket := if item.root in byRoot then byRoot[item.root] else [];
    var i := 0;
    while i < |bucket|
      invariant 0 <= i <= |bucket|
      invariant forall j :: 0 <= j < i ==> !IsUnderContainer(bucket[j], item.path)
    {
      if IsUnderContainer(bucket[i], item.path) {
        var s := (item.root, bucket[i]);
        assert bucket[i] in bucket;
        forall t | t in order && Claims(t, item) ensures |t.1| <= |s.1| {
          assert t.1 in bucket;
          var j :| 0 <= j < |bucket| && bucket[j] == t.1;
        }
        return Some(s);
      }
      i := i + 1;
    }
    forall s | s in order ensures !Claims(s, item) {
      if s.0 == item.root {
        assert s.1 in bucket;
      }
    }
    return None;
  }

  function SlotsOf(order: seq<Slot>): set<Slot> {
    set s <- order :: s
  }

  // ---------- assignment ----------

  function IdsAt(assignment: map<Slot, seq<string>>, s: Slot): seq<string> {
    if s in assignment then assignment[s] else []
  }

  /** The ids assigned to a container are those of the items it owns. */
  ghost predicate AssignedOk(slots: set<Slot>, items: seq<Item>, assignment: map<Slot, seq<string>>, s: Slot) {
    forall id :: id in IdsAt(assignment, s) <==> exists it :: it in items && it.id == id && Owns(slots, s, it)
  }

  ghost predicate Assigned(slots: set<Slot>, items: seq<Item>, assignment: map<Slot, seq<string>>) {
    forall s {:trigger AssignedOk(slots, items, assignment, s)} :: AssignedOk(slots, items, assignment, s)
  }

  lemma {:induction false} AssignOne(slots: set<Slot>, items: seq<Item>, assignment: map<Slot, seq<string>>, it: Item, owner: Option<Slot>)
    requires Assigned(slots, items, assignment)
    requires owner.Some? ==> Owns(slots, owner.value, it)
    requires owner.None? ==> forall s :: s in slots ==> !Claims(s, it)
    ensures owner.None? ==> Assigned(slots, items + [it], assignment)
    ensures owner.Some? ==>
      Assigned(slots, items + [it], assignment[owner.value := IdsAt(assignment, owner.value) + [it.id]])
  {
    var all := items + [it];
    assert forall x :: x in all <==> x in items || x == it;
    var grown := if owner.None? then assignment else assignment[owner.value := IdsAt(assignment, owner.value) + [it.id]];
    forall s ensures AssignedOk(slots, all, grown, s) {
      assert AssignedOk(slots, items, assignment, s);
      if owner.Some? && Owns(slots, s, it) { OwnerIsUnique(slots, owner.value, s, it); }
      assert Owns(slots, s, it) <==> owner == Some(s);
      hide Owns, Claims;
      var before := IdsAt(assignment, s);
      assert IdsAt(grown, s) == before + (if owner == Some(s) then [it.id] else []);
      forall id ensures id in IdsAt(grown, s) <==> exists x :: x in all && x.id == id && Owns(slots, s, x) {
        assert id in before <==> exists x :: x in items && x.id == id && Owns(slots, s, x);
      }
    }
  }

  method Assign(order: seq<Slot>, items: seq<Item>) returns (assignment: map<Slot, seq<string>>)
    ensures Assigned(SlotsOf(order), items, assignment)
  {
    hide Owns, Claims, Assigned, Bucketed;
    var byRoot := BucketByRoot(order);
    assignment := map[];
    NothingAssigned(SlotsOf(order));
    var i := 0;
    while i < |items|
      invariant 0 <= i <= |items| && Assigned(SlotsOf(order), items[..i], assignment)
    {
      assert items[..i + 1] == items[..i] + [items[i]];
      var owner := FindOwner(order, byRoot, items[i]);
      AssignOne(SlotsOf(order), items[..i], assignment, items[i], owner);
      if owner.Some? { assignment := assignment[owner.value := IdsAt(assignment, owner.value) + [items[i].id]]; }
      i := i + 1;
    }
    assert items[..i] == items;
  }

  lemma {:induction false} NothingAssigned(slots: set<Slot>)
    ensures Assigned(slots, [], map[])
  {}

  // ---------- project keys ----------

  /** Trailing separators trimmed. */
  function TrimSeparators(path: string): string {
    if path != "" && (path[|path| - 1] == '!' || path[|path| - 1] == '/') then TrimSeparators(path[..|path| - 1]) else path
  }

  /** What a container is called: its path behind the last separator. */
  function ContainerName(path: string): string {
    var cleaned := TrimSeparators(path);
    cleaned[LastIndexOf(cleaned, '/') + 1..]
  }

  /** A declared identifier joins across roots, a directory name next, and a bare root joins nothing. */
  function ProjectGroupKey(declared: Option<string>, name: string, rootLabel: string): string {
    if declared.Some? then "project:" + declared.value
    else if |name| > 0 then "container:" + name
    else "root:" + rootLabel
  }

  function KeyOf(containers: map<Slot, Container>, labels: map<string, string>, s: Slot): string
    requires s in containers
  {
    var identifiers := Sort(containers[s].declared, AtMost);
    ProjectGroupKey(if identifiers == [] then None else Some(identifiers[0]), ContainerName(s.1),
                    if s.0 in labels then labels[s.0] else s.0)
  }

  /** Each namespace is its own: a root's rootLabel never joins a directory of the same name. */
  lemma {:induction false} NamespacesAreApart(declared: Option<string>, name: string, rootLabel: string, declared': Option<string>,
                                              name': string, rootLabel': string)
    requires ProjectGroupKey(declared, name, rootLabel) == ProjectGroupKey(declared', name', rootLabel')
    ensures declared == declared'
    ensures declared.None? ==> name == name' && (name == "" ==> rootLabel == rootLabel')
  {
    var k := ProjectGroupKey(declared, name, rootLabel);
    assert declared.Some? ==> k[8..] == declared.value && k[0] == 'p';
    assert declared'.Some? ==> k[8..] == declared'.value && k[0] == 'p';
    assert declared.None? && |name| > 0 ==> k[10..] == name && k[0] == 'c';
    assert declared'.None? && |name'| > 0 ==> k[10..] == name' && k[0] == 'c';
    assert declared.None? && |name| == 0 ==> k[5..] == rootLabel && k[0] == 'r';
    assert declared'.None? && |name'| == 0 ==> k[5..] == rootLabel' && k[0] == 'r';
  }

  // ---------- candidates ----------

  datatype Candidate = Candidate(key: string, members: seq<string>)

  /** Some item of that id is owned by a container of that key. */
  ghost predicate BelongsTo(containers: map<Slot, Container>, labels: map<string, string>, items: seq<Item>, key: string, id: string) {
    exists it, s :: it in items && it.id == id && s in containers && Owns(containers.Keys, s, it) && KeyOf(containers, labels, s) == key
  }

  ghost predicate CandidateOk(containers: map<Slot, Container>, labels: map<string, string>, items: seq<Item>, c: Candidate) {
    && c.members != [] && Ordered(AtMost, c.members) && Distinct(c.members)
    && forall id :: id in c.members <==> BelongsTo(containers, labels, items, c.key, id)
  }

  ghost predicate KeysDiffer(candidates: seq<Candidate>) {
    forall i, j :: 0 <= i < j < |candidates| ==> candidates[i].key != candidates[j].key
  }

  predicate KeyAtMost(a: Candidate, b: Candidate) {
    AtMost(a.key, b.key)
  }

  ghost predicate IsReport(containers: map<Slot, Container>, labels: map<string, string>, items: seq<Item>, candidates: seq<Candidate>) {
    && (forall c :: c in candidates ==> CandidateOk(containers, labels, items, c))
    && (forall key, id :: BelongsTo(containers, labels, items, key, id) ==> exists c :: c in candidates && c.key == key)
    && KeysDiffer(candidates) && Ordered(KeyAtMost, candidates)
  }

  /** Add to a set kept as a list. */
  function AddNew(list: seq<string>, more: seq<string>): (r: seq<string>)
    requires Distinct(list)
    ensures forall x :: x in r <==> x in list || x in more
    ensures Distinct(r)
  {
    if more == [] then list
    else
      var last := |more| - 1;
      var rest := AddNew(list, more[..last]);
      assert forall x :: x in more <==> x in more[..last] || x == more[last];
      if more[last] in rest then rest else rest + [more[last]]
  }

  /** The ids assigned to the containers of one key, each once. */
  function Gather(containers: map<Slot, Container>, labels: map<string, string>, assignment: map<Slot, seq<string>>,
                  order: seq<Slot>, key: string): (r: seq<string>)
    requires forall s :: s in order ==> s in containers
    ensures Distinct(r)
  {
    if order == [] then []
    else
      var last := |order| - 1;
      var rest := Gather(containers, labels, assignment, order[..last], key);
      if KeyOf(containers, labels, order[last]) == key then AddNew(rest, IdsAt(assignment, order[last])) else rest
  }

  /** The id was assigned to a container of this key. */
  ghost predicate Gathered(containers: map<Slot, Container>, labels: map<string, string>, assignment: map<Slot, seq<string>>,
                           order: seq<Slot>, key: string, id: string)
    requires forall s :: s in order ==> s in containers
  {
    exists s :: s in order && KeyOf(containers, labels, s) == key && id in IdsAt(assignment, s)
  }

  lemma {:induction false} GatherHolds(containers: map<Slot, Container>, labels: map<string, string>, assignment: map<Slot, seq<string>>,
                                       order: seq<Slot>, key: string, id: string)
    requires forall s :: s in order ==> s in containers
    ensures id in Gather(containers, labels, assignment, order, key) <==> Gathered(containers, labels, assignment, order, key, id)
  {
    hide KeyOf, IdsAt;
    if order == [] {
    } else {
      var last := |order| - 1;
      GatherHolds(containers, labels, assignment, order[..last], key, id);
      assert forall s :: s in order <==> s in order[..last] || s == order[last];
    }
  }

  /** The keys of the containers, each once, in order of first occurrence. */
  function KeysSeen(containers: map<Slot, Container>, labels: map<string, string>, order: seq<Slot>): (r: seq<string>)
    requires forall s :: s in order ==> s in containers
    ensures Distinct(r)
  {
    AddNew([], seq(|order|, i requires 0 <= i < |order| => KeyOf(containers, labels, order[i])))
  }

  lemma {:induction false} KeysSeenHold(containers: map<Slot, Container>, labels: map<string, string>, order: seq<Slot>, s: Slot)
    requires (forall s :: s in order ==> s in containers) && s in order
    ensures KeyOf(containers, labels, s) in KeysSeen(containers, labels, order)
  {
    hide KeyOf, AddNew;
    var keys := seq(|order|, i requires 0 <= i < |order| => KeyOf(containers, labels, order[i]));
    var i :| 0 <= i < |order| && order[i] == s;
    assert keys[i] == KeyOf(containers, labels, s);
  }

  lemma {:induction false} GatheredBelong(containers: map<Slot, Container>, labels: map<string, string>, items: seq<Item>,
                                          assignment: map<Slot, seq<string>>, order: seq<Slot>, key: string)
    requires (forall s :: s in order <==> s in containers) && Assigned(containers.Keys, items, assignment)
    ensures forall id :: id in Gather(containers, labels, assignment, order, key) <==> BelongsTo(containers, labels, items, key, id)
  {
    hide KeyOf, Owns, Gather, IdsAt;
    forall id ensures id in Gather(containers, labels, assignment, order, key) <==> BelongsTo(containers, labels, items, key, id) {
      GatherHolds(containers, labels, assignment, order, key, id);
      if id in Gather(containers, labels, assignment, order, key) {
        var s :| s in order && KeyOf(containers, labels, s) == key && id in IdsAt(assignment, s);
        assert AssignedOk(containers.Keys, items, assignment, s);
      }
      if BelongsTo(containers, labels, items, key, id) {
        var it, s :| it in items && it.id == id && s in containers && Owns(containers.Keys, s, it) && KeyOf(containers, labels, s) == key;
        assert AssignedOk(containers.Keys, items, assignment, s);
      }
    }
  }

  /** Group the containers by key; a group that was given no member is no candidate. */
  method BuildProjectCandidates(markers: seq<Marker>, items: seq<Item>, labels: map<string, string>)
    returns (candidates: seq<Candidate>, containers: map<Slot, Container>)
    ensures Collected(markers, containers) && IsReport(containers, labels, items, candidates)
  {
    hide Collected, Assigned, CandidateOk, BelongsTo, Gather, KeysSeen, Sort, KeyOf, AtMost;
    var collected, order := CollectContainers(markers);
    containers := collected;
    var assignment := Assign(order, items);
    assert SlotsOf(order) == collected.Keys;
    var keys := KeysSeen(collected, labels, order);
    var list: seq<Candidate> := [];
    var i := 0;
    while i < |keys|
      invariant 0 <= i <= |keys|
      invariant forall c :: c in list ==> CandidateOk(collected, labels, items, c) && c.key in keys[..i]
      invariant forall k, id :: k in keys[..i] && BelongsTo(collected, labels, items, k, id) ==> exists c :: c in list && c.key == k
      invariant KeysDiffer(list)
    {
      var key := keys[i];
      var ids := Gather(collected, labels, assignment, order, key);
      GatheredBelong(collected, labels, items, assignment, order, key);
      assert keys[..i + 1] == keys[..i] + [key] && key !in keys[..i];
      if |ids| > 0 {
        var c := Candidate(key, Sort(ids, AtMost));
        SortedIsOk(collected, labels, items, ids, c);
        assert forall k :: 0 <= k < |list| ==> list[k] in list;
        list := list + [c];
      } else {
        NothingBelongs(ids, collected, labels, items, key);
      }
      i := i + 1;
    }
    assert keys[..i] == keys;
    KeysCover(collected, labels, items, order, keys);
    SortedReport(collected, labels, items, list);
    candidates := Sort(list, KeyAtMost);
  }

  lemma {:induction false} NothingBelongs(ids: seq<string>, containers: map<Slot, Container>, labels: map<string, string>,
                                          items: seq<Item>, key: string)
    requires ids == [] && forall id :: id in ids <==> BelongsTo(containers, labels, items, key, id)
    ensures forall id :: !BelongsTo(containers, labels, items, key, id)
  {
    hide BelongsTo;
  }

  lemma {:induction false} SortedIsOk(containers: map<Slot, Container>, labels: map<string, string>, items: seq<Item>,
                                      ids: seq<string>, c: Candidate)
    requires ids != [] && Distinct(ids) && c.members == Sort(ids, AtMost)
    requires forall id :: id in ids <==> BelongsTo(containers, labels, items, c.key, id)
    ensures CandidateOk(containers, labels, items, c)
  {
    AtMostIsTotalPreorder();
    hide AtMost, Sort, BelongsTo, TotalPreorder;
    SortOrders(ids, AtMost);
    SortKeepsMembers(ids, AtMost);
    SortKeepsDistinct(ids, AtMost);
  }

  lemma {:induction false} KeysCover(containers: map<Slot, Container>, labels: map<string, string>, items: seq<Item>,
                                     order: seq<Slot>, keys: seq<string>)
    requires (forall s :: s in order <==> s in containers) && keys == KeysSeen(containers, labels, order)
    ensures forall k, id :: BelongsTo(containers, labels, items, k, id) ==> k in keys
  {
    hide KeyOf, Owns, KeysSeen;
    forall k, id | BelongsTo(containers, labels, items, k, id) ensures k in keys {
      var it, s :| it in items && it.id == id && s in containers && Owns(containers.Keys, s, it) && KeyOf(containers, labels, s) == k;
      KeysSeenHold(containers, labels, order, s);
    }
  }

  lemma {:induction false} SortedReport(containers: map<Slot, Container>, labels: map<string, string>, items: seq<Item>, list: seq<Candidate>)
    requires forall c :: c in list ==> CandidateOk(containers, labels, items, c)
    requires forall key, id :: BelongsTo(containers, labels, items, key, id) ==> exists c :: c in list && c.key == key
    requires KeysDiffer(list)
    ensures IsReport(containers, labels, items, Sort(list, KeyAtMost))
  {
    hide CandidateOk, BelongsTo, AtMost, Sort, TotalPreorder;
    KeyOrder();
    SortOrders(list, KeyAtMost);
    SortKeepsMembers(list, KeyAtMost);
    SortKeepsDistinct(list, KeyAtMost);
    var sorted := Sort(list, KeyAtMost);
    forall i, j | 0 <= i < j < |sorted| ensures sorted[i].key != sorted[j].key {
      assert sorted[i] in list && sorted[j] in list && sorted[i] != sorted[j];
      DifferentKeys(list, sorted[i], sorted[j]);
    }
    forall key, id | BelongsTo(containers, labels, items, key, id) ensures exists c :: c in sorted && c.key == key {
      var c :| c in list && c.key == key;
      assert c in sorted;
    }
  }

  lemma {:induction false} DifferentKeys(list: seq<Candidate>, a: Candidate, b: Candidate)
    requires KeysDiffer(list) && a in list && b in list && a != b
    ensures a.key != b.key
  {
    var i :| 0 <= i < |list| && list[i] == a;
    var j :| 0 <= j < |list| && list[j] == b;
    assert i < j || j < i;
  }

  lemma {:induction false} KeyOrder()
    ensures TotalPreorder(KeyAtMost)
  {
    hide AtMost;
    forall x, y ensures KeyAtMost(x, y) || KeyAtMost(y, x) { AtMostTotal(x.key, y.key); }
    forall x, y, z | KeyAtMost(x, y) && KeyAtMost(y, z) ensures KeyAtMost(x, z) { AtMostTransitive(x.key, y.key, z.key); }
  }

  // ---------- the candidates partition what is claimed ----------

  predicate DistinctItems(items: seq<Item>) {
    forall i, j :: 0 <= i < j < |items| ==> items[i].id != items[j].id
  }

  lemma {:induction false} SameIdSameItem(items: seq<Item>, x: Item, y: Item)
    requires DistinctItems(items) && x in items && y in items && x.id == y.id
    ensures x == y
  {
    var i :| 0 <= i < |items| && items[i] == x;
    var j :| 0 <= j < |items| && items[j] == y;
    assert !(i < j) && !(j < i);
  }

  /** No artifact is in two candidates. */
  lemma {:induction false} CandidatesAreDisjoint(containers: map<Slot, Container>, labels: map<string, string>, items: seq<Item>,
                                                 candidates: seq<Candidate>, c: Candidate, d: Candidate, id: string)
    requires DistinctItems(items) && IsReport(containers, labels, items, candidates)
    requires c in candidates && d in candidates && id in c.members && id in d.members
    ensures c == d
  {
    assert CandidateOk(containers, labels, items, c) && CandidateOk(containers, labels, items, d);
    hide KeyOf, Owns;
    var it, s :| it in items && it.id == id && s in containers && Owns(containers.Keys, s, it) && KeyOf(containers, labels, s) == c.key;
    var it', s' :| it' in items && it'.id == id && s' in containers && Owns(containers.Keys, s', it') && KeyOf(containers, labels, s') == d.key;
    SameIdSameItem(items, it, it');
    SameOwner(containers.Keys, s, s', it);
    hide CandidateOk;
    if c != d { DifferentKeys(candidates, c, d); }
  }

  lemma {:induction false} SameOwner(slots: set<Slot>, s: Slot, t: Slot, it: Item)
    requires Owns(slots, s, it) && Owns(slots, t, it)
    ensures s == t
  {
    OwnerIsUnique(slots, s, t, it);
  }

  /** Among finitely many claimants one is longest. */
  lemma {:induction false} SomeOwner(slots: set<Slot>, claimants: set<Slot>, it: Item) returns (s: Slot)
    requires claimants != {} && claimants <= slots && forall t :: t in claimants ==> Claims(t, it)
    requires forall t :: t in slots && Claims(t, it) && t !in claimants ==> exists u :: u in claimants && |t.1| <= |u.1|
    ensures Owns(slots, s, it)
    decreases claimants
  {
    hide Claims;
    s :| s in claimants;
    if t :| t in claimants && |t.1| > |s.1| {
      var rest := claimants - {s};
      forall x | x in slots && Claims(x, it) && x !in rest ensures exists u :: u in rest && |x.1| <= |u.1| {
        var u :| u in claimants && |x.1| <= |u.1|;
        if u == s { assert t in rest && |x.1| <= |t.1|; } else { assert u in rest; }
      }
      s := SomeOwner(slots, rest, it);
    } else {
      forall t | t in slots && Claims(t, it) ensures |t.1| <= |s.1| {
        if t !in claimants { var u :| u in claimants && |t.1| <= |u.1|; }
      }
    }
  }

  /** An artifact is in some candidate exactly when some container claims it. */
  lemma {:induction false} CandidatesCoverTheClaimed(containers: map<Slot, Container>, labels: map<string, string>, items: seq<Item>,
                                                     candidates: seq<Candidate>, it: Item)
    requires DistinctItems(items) && IsReport(containers, labels, items, candidates) && it in items
    ensures (exists c :: c in candidates && it.id in c.members) <==> exists s :: s in containers && Claims(s, it)
  {
    hide KeyOf, Claims;
    if c :| c in candidates && it.id in c.members {
      assert CandidateOk(containers, labels, items, c);
      var it', s :| it' in items && it'.id == it.id && s in containers && Owns(containers.Keys, s, it') && KeyOf(containers, labels, s) == c.key;
      SameIdSameItem(items, it, it');
    }
    if t :| t in containers && Claims(t, it) {
      var claimants := set u <- containers.Keys | Claims(u, it);
      assert t in claimants;
      var s := SomeOwner(containers.Keys, claimants, it);
      var key := KeyOf(containers, labels, s);
      assert BelongsTo(containers, labels, items, key, it.id);
      var c :| c in candidates && c.key == key;
      assert CandidateOk(containers, labels, items, c);
    }
  }
}
