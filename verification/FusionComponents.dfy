/**
 Connected components as src/corpus_fusion.ts computes them: a parent map whose `find` recurses and
 compresses, unions that keep the lesser root, and the sorted report of the classes.
 */
module FusionComponents {
  import opened Ordering
  import opened Connectivity

  type Link = (string, string)

  // ---------- the structure ----------

  /** The keys that sort before a node; it shrinks along every link. */
  ghost function Below(keys: set<string>, node: string): set<string> {
    set m <- keys | Before(m, node)
  }

  lemma {:induction false} BelowShrinks(keys: set<string>, node: string, lower: string)
    requires lower in keys && Before(lower, node)
    ensures Below(keys, lower) < Below(keys, node)
  {
    forall m | m in Below(keys, lower) ensures m in Below(keys, node) {
      AtMostTransitive(m, lower, node);
      AtMostTotal(m, lower);
      AtMostTotal(m, node);
      AtMostTotal(lower, node);
    }
    assert lower in Below(keys, node) && lower !in Below(keys, lower);
  }

  /** `root` is where the links lead, and no link leads upwards in code-point order. */
  ghost predicate LinkOk(parent: map<string, string>, root: map<string, string>, n: string)
    requires n in parent && root.Keys == parent.Keys
  {
    && parent[n] in parent && root[n] in parent
    && root[parent[n]] == root[n] && root[root[n]] == root[n] && parent[root[n]] == root[n]
    && (parent[n] == n ==> root[n] == n)
    && AtMost(parent[n], n) && AtMost(root[n], n)
  }

  ghost predicate Tree(parent: map<string, string>, root: map<string, string>) {
    root.Keys == parent.Keys && forall n {:trigger LinkOk(parent, root, n)} :: n in parent ==> LinkOk(parent, root, n)
  }

  /** Two nodes share a root exactly when the united links connect them. */
  ghost predicate Agree(root: map<string, string>, links: set<Link>, x: string, y: string)
    requires x in root && y in root
  {
    root[x] == root[y] <==> Connected<string>(links, x, y)
  }

  ghost predicate RootsConnect(root: map<string, string>, links: set<Link>) {
    && (forall l :: l in links ==> l.0 in root && l.1 in root)
    && forall x, y {:trigger Agree(root, links, x, y)} :: x in root && y in root ==> Agree(root, links, x, y)
  }

  ghost predicate Lists(order: seq<string>, keys: set<string>) {
    Distinct(order) && forall n :: n in order <==> n in keys
  }

  class Forest {
    var parent: map<string, string>
    /** The insertion order of `parent`. */
    var order: seq<string>
    ghost var root: map<string, string>
    ghost var links: set<Link>

    ghost predicate Valid()
      reads this
    {
      && Tree(parent, root) && RootsConnect(root, links)
      && Lists(order, parent.Keys)
    }

    constructor ()
      ensures Valid() && order == [] && links == {} && parent.Keys == {}
    {
      parent, order, root, links := map[], [], map[], {};
    }

    /** Climb to the root, pointing every node on the way straight at it. No root changes. */
    method Find(node: string) returns (r: string)
      requires Valid() && node in parent
      modifies this`parent
      ensures Valid() && parent.Keys == old(parent.Keys) && r == root[node]
      decreases Below(parent.Keys, node)
    {
      hide Below, RootsConnect, Tree, Lists;
      OneStep(parent, root, node);
      r := parent[node];
      if r != node {
        r := Find(r);
        Compressed(parent, root, node);
        parent := parent[node := r];
      }
    }

    method Add(node: string)
      requires Valid()
      modifies this`parent, this`order, this`root
      ensures Valid() && parent.Keys == old(parent.Keys) + {node}
    {
      hide RootsConnect, Tree, Lists;
      if node !in parent {
        FreshTree(parent, root, node);
        FreshRoots(parent, root, links, node);
        Listed(order, parent.Keys, node);
        assert parent[node := node].Keys == parent.Keys + {node};
        parent, order, root := parent[node := node], order + [node], root[node := node];
      }
    }

    /** Hang the root that sorts later under the other one. */
    method Union(x: string, y: string)
      requires Valid() && x in parent && y in parent
      modifies this`parent, this`root, this`links
      ensures Valid() && parent.Keys == old(parent.Keys) && links == old(links) + {(x, y)}
    {
      hide RootsConnect, Tree, Lists, Redirect, AtMost;
      SameKeys(parent, root);
      var rx := Find(x);
      var ry := Find(y);
      SameKeys(parent, root);
      RootsAreNodes(parent, root, x, y);
      if rx == ry {
        InsideOneClass(root, links, x, y);
      } else if AtMost(rx, ry) {
        JoinedTree(parent, root, x, y, rx, ry);
        JoinedRoots(root, links, x, y, rx, ry);
        parent, root := parent[ry := rx], Redirect(root, ry, rx);
      } else {
        AtMostTotal(rx, ry);
        JoinedTree(parent, root, y, x, ry, rx);
        JoinedRoots(root, links, y, x, ry, rx);
        parent, root := parent[rx := ry], Redirect(root, rx, ry);
      }
      links := links + {(x, y)};
    }
  }

  lemma {:induction false} SameKeys(parent: map<string, string>, root: map<string, string>)
    requires Tree(parent, root)
    ensures root.Keys == parent.Keys
  {}

  lemma {:induction false} RootsAreNodes(parent: map<string, string>, root: map<string, string>, x: string, y: string)
    requires Tree(parent, root) && x in parent && y in parent
    ensures x in root && y in root && root[x] in parent && root[y] in parent
  {
    assert LinkOk(parent, root, x) && LinkOk(parent, root, y);
  }

  /** One link up: the root is the same, and the measure is smaller. */
  lemma {:induction false} OneStep(parent: map<string, string>, root: map<string, string>, node: string)
    requires Tree(parent, root) && node in parent
    ensures root.Keys == parent.Keys && parent[node] in parent && root[parent[node]] == root[node]
    ensures parent[node] == node ==> root[node] == node
    ensures parent[node] != node ==> Below(parent.Keys, parent[node]) < Below(parent.Keys, node)
  {
    hide AtMost, Below;
    assert LinkOk(parent, root, node);
    if parent[node] != node { BelowShrinks(parent.Keys, node, parent[node]); }
  }

  lemma {:induction false} Listed(order: seq<string>, keys: set<string>, node: string)
    requires Lists(order, keys) && node !in keys
    ensures Lists(order + [node], keys + {node})
  {
    assert forall i :: 0 <= i < |order| ==> order[i] in order;
  }

  /** Every node rooted at `upper` becomes rooted at `lower`. */
  ghost function Redirect(root: map<string, string>, upper: string, lower: string): map<string, string> {
    map n <- root :: if root[n] == upper then lower else root[n]
  }

  lemma {:induction false} Compressed(parent: map<string, string>, root: map<string, string>, node: string)
    requires Tree(parent, root) && node in parent
    ensures node in root && Tree(parent[node := root[node]], root)
    ensures parent[node := root[node]].Keys == parent.Keys
  {
    hide AtMost;
    var after := parent[node := root[node]];
    assert LinkOk(parent, root, node) && LinkOk(parent, root, root[node]);
    forall n | n in after ensures LinkOk(after, root, n) {
      assert LinkOk(parent, root, n);
      assert LinkOk(parent, root, root[n]);
    }
  }

  lemma {:induction false} AlonePath(links: set<Link>, node: string, p: seq<string>, x: string, y: string)
    requires (forall l :: l in links ==> l.0 != node && l.1 != node) && Path<string>(links, p, x, y)
    ensures x == y || (x != node && y != node)
  {
    if |p| <= 1 {
    } else {
      assert Adjacent<string>(links, p[0], p[0 + 1]);
      assert Adjacent<string>(links, p[|p| - 2], p[|p| - 2 + 1]);
    }
  }

  lemma {:induction false} FreshTree(parent: map<string, string>, root: map<string, string>, node: string)
    requires Tree(parent, root) && node !in parent
    ensures Tree(parent[node := node], root[node := node])
  {
    AtMostTotal(node, node);
    hide AtMost;
    var after, r := parent[node := node], root[node := node];
    forall n | n in after ensures LinkOk(after, r, n) {
      if n != node { assert LinkOk(parent, root, n); }
    }
  }

  lemma {:induction false} FreshRoots(parent: map<string, string>, root: map<string, string>, links: set<Link>, node: string)
    requires Tree(parent, root) && RootsConnect(root, links) && node !in parent
    ensures RootsConnect(root[node := node], links)
  {
    hide AtMost;
    var r := root[node := node];
    forall x, y | x in r && y in r ensures Agree(r, links, x, y) {
      if x == y {
        ConnectedRefl<string>(links, x);
      } else if x == node || y == node {
        if x != node { assert LinkOk(parent, root, x); }
        if y != node { assert LinkOk(parent, root, y); }
        if Connected<string>(links, x, y) {
          var p :| Path<string>(links, p, x, y);
          AlonePath(links, node, p, x, y);
        }
      } else {
        assert Agree(root, links, x, y);
      }
    }
  }

  /** A value that agrees at both ends of every link agrees along every path. */
  lemma {:induction false} AgreesAlongPath(root: map<string, string>, links: set<Link>, p: seq<string>, x: string, y: string)
    requires forall l :: l in links ==> l.0 in root && l.1 in root && root[l.0] == root[l.1]
    requires x in root && Path<string>(links, p, x, y)
    ensures y in root && root[x] == root[y]
    decreases |p|
  {
    if |p| <= 1 {
    } else {
      assert Adjacent<string>(links, p[0], p[0 + 1]);
      forall k | 0 <= k < |p[1..]| - 1 ensures Adjacent<string>(links, p[1..][k], p[1..][k + 1]) {
        assert Adjacent<string>(links, p[k + 1], p[k + 1 + 1]);
      }
      AgreesAlongPath(root, links, p[1..], p[1], y);
    }
  }

  /** What one more link between `x` and `y` makes of the roots of two nodes. */
  ghost predicate Meets(root: map<string, string>, x: string, y: string, n: string, m: string)
    requires x in root && y in root && n in root && m in root
  {
    root[n] == root[m] || (root[n] == root[x] && root[m] == root[y]) || (root[n] == root[y] && root[m] == root[x])
  }

  lemma {:induction false} RootsAfterLink(root: map<string, string>, links: set<Link>, x: string, y: string, after: map<string, string>)
    requires RootsConnect(root, links) && x in root && y in root && after.Keys == root.Keys
    requires forall n, m {:trigger Meets(root, x, y, n, m)} :: n in root && m in root ==>
      (after[n] == after[m] <==> Meets(root, x, y, n, m))
    ensures RootsConnect(after, links + {(x, y)})
  {
    var all := links + {(x, y)};
    forall l | l in all ensures l.0 in after && l.1 in after && after[l.0] == after[l.1] {
      if l in links {
        EdgeConnects<string>(links, l);
        assert Agree(root, links, l.0, l.1);
        assert Meets(root, x, y, l.0, l.1);
      } else {
        assert Meets(root, x, y, x, y);
      }
    }
    forall n, m | n in after && m in after ensures Agree(after, all, n, m) {
      if Connected<string>(all, n, m) {
        var p :| Path<string>(all, p, n, m);
        AgreesAlongPath(after, all, p, n, m);
      }
      if after[n] == after[m] {
        assert Meets(root, x, y, n, m);
        Bridge(root, links, x, y, n, m);
      }
    }
  }

  lemma {:induction false} Bridge(root: map<string, string>, links: set<Link>, x: string, y: string, n: string, m: string)
    requires RootsConnect(root, links) && x in root && y in root && n in root && m in root && Meets(root, x, y, n, m)
    ensures Connected<string>(links + {(x, y)}, n, m)
  {
    var all := links + {(x, y)};
    EdgeConnects<string>(all, (x, y));
    ConnectedSymm<string>(all, x, y);
    if root[n] == root[m] {
      assert Agree(root, links, n, m);
      ConnectedMonotone<string>(links, all, n, m);
    } else if root[n] == root[x] && root[m] == root[y] {
      assert Agree(root, links, n, x) && Agree(root, links, y, m);
      ConnectedMonotone<string>(links, all, n, x);
      ConnectedMonotone<string>(links, all, y, m);
      ConnectedTrans<string>(all, n, x, y);
      ConnectedTrans<string>(all, n, y, m);
    } else {
      assert Agree(root, links, n, y) && Agree(root, links, x, m);
      ConnectedMonotone<string>(links, all, n, y);
      ConnectedMonotone<string>(links, all, x, m);
      ConnectedTrans<string>(all, n, y, x);
      ConnectedTrans<string>(all, n, x, m);
    }
  }

  /** A link inside one class changes no class. */
  lemma {:induction false} InsideOneClass(root: map<string, string>, links: set<Link>, x: string, y: string)
    requires RootsConnect(root, links) && x in root && y in root && root[x] == root[y]
    ensures RootsConnect(root, links + {(x, y)})
  {
    hide RootsConnect;
    RootsAfterLink(root, links, x, y, root);
  }

  lemma {:induction false} JoinedTree(parent: map<string, string>, root: map<string, string>, x: string, y: string,
                                      lower: string, upper: string)
    requires Tree(parent, root) && x in root && y in root
    requires lower == root[x] && upper == root[y] && lower != upper && AtMost(lower, upper)
    ensures Tree(parent[upper := lower], Redirect(root, upper, lower))
    ensures parent[upper := lower].Keys == parent.Keys
  {
    hide AtMost;
    var links, after := parent[upper := lower], Redirect(root, upper, lower);
    assert LinkOk(parent, root, x) && LinkOk(parent, root, y) && LinkOk(parent, root, lower) && LinkOk(parent, root, upper);
    forall n | n in links ensures LinkOk(links, after, n) {
      assert LinkOk(parent, root, n);
      assert LinkOk(parent, root, root[n]);
      if root[n] == upper { AtMostTransitive(lower, upper, n); }
    }
  }

  lemma {:induction false} JoinedRoots(root: map<string, string>, links: set<Link>, x: string, y: string, lower: string, upper: string)
    requires RootsConnect(root, links) && x in root && y in root
    requires lower == root[x] && upper == root[y] && lower != upper
    ensures RootsConnect(Redirect(root, upper, lower), links + {(x, y)})
    ensures RootsConnect(Redirect(root, upper, lower), links + {(y, x)})
  {
    var after := Redirect(root, upper, lower);
    hide RootsConnect;
    RootsAfterLink(root, links, x, y, after);
    RootsAfterLink(root, links, y, x, after);
  }

  /** The root of a class is its least member. */
  lemma {:induction false} RootIsLeast(parent: map<string, string>, root: map<string, string>, links: set<Link>, n: string)
    requires Tree(parent, root) && RootsConnect(root, links) && n in root
    ensures root[n] in root && Connected<string>(links, n, root[n])
    ensures forall m :: m in root && Connected<string>(links, n, m) ==> AtMost(root[n], m)
  {
    assert LinkOk(parent, root, n) && Agree(root, links, n, root[n]);
    forall m | m in root && Connected<string>(links, n, m) ensures AtMost(root[n], m) {
      assert LinkOk(parent, root, m) && Agree(root, links, n, m);
    }
  }

  // ---------- the report ----------

  /** The ends of the links. */
  predicate IsNode(links: set<Link>, n: string) {
    exists l <- links :: l.0 == n || l.1 == n
  }

  /** One component: a sorted list of two members or more, closed under the links. */
  ghost predicate IsComponent(links: set<Link>, members: seq<string>) {
    && |members| >= 2 && Ordered(AtMost, members) && Distinct(members)
    && forall x, y {:trigger InSameComponent(links, members, x, y)} :: x in members ==> InSameComponent(links, members, x, y)
  }

  ghost predicate InSameComponent(links: set<Link>, members: seq<string>, x: string, y: string) {
    y in members <==> IsNode(links, y) && Connected<string>(links, x, y)
  }

  /** Every node that a link joins to another one is in a component. */
  ghost predicate Covers(links: set<Link>, components: seq<seq<string>>) {
    forall x, y :: x != y && Connected<string>(links, x, y) ==> exists c :: c in components && x in c
  }

  predicate HeadAtMost(x: seq<string>, y: seq<string>) {
    x == [] || (y != [] && AtMost(x[0], y[0]))
  }

  ghost predicate IsComponentReport(links: set<Link>, components: seq<seq<string>>) {
    && (forall c :: c in components ==> IsComponent(links, c))
    && Covers(links, components)
    && Ordered(HeadAtMost, components) && Distinct(components)
  }

  lemma {:induction false} PathEndsAreNodes(links: set<Link>, p: seq<string>, x: string, y: string)
    requires Path<string>(links, p, x, y) && x != y
    ensures IsNode(links, x) && IsNode(links, y)
  {
    assert Adjacent<string>(links, p[0], p[0 + 1]);
    assert Adjacent<string>(links, p[|p| - 2], p[|p| - 2 + 1]);
  }

  lemma {:induction false} ConnectedAreNodes(links: set<Link>, x: string, y: string)
    requires Connected<string>(links, x, y) && x != y
    ensures IsNode(links, x) && IsNode(links, y)
  {
    var p :| Path<string>(links, p, x, y);
    PathEndsAreNodes(links, p, x, y);
  }

  /** Two components with a member in common are one list. */
  lemma {:induction false} ComponentUnique(links: set<Link>, c: seq<string>, d: seq<string>, x: string)
    requires IsComponent(links, c) && IsComponent(links, d) && x in c && x in d
    ensures c == d
  {
    forall y ensures y in c <==> y in d {
      assert InSameComponent(links, c, x, y);
      assert InSameComponent(links, d, x, y);
    }
    hide AtMost, InSameComponent;
    forall a, b | a in c && b in c && AtMost(a, b) && AtMost(b, a) ensures a == b { AtMostTotal(a, b); }
    OrderedListUnique(AtMost, c, d);
  }

  lemma {:induction false} HeadAtMostIsTotalPreorder()
    ensures TotalPreorder(HeadAtMost)
  {
    AtMostIsTotalPreorder();
    hide AtMost;
    forall x, y ensures HeadAtMost(x, y) || HeadAtMost(y, x) {
      if x != [] && y != [] { AtMostTotal(x[0], y[0]); }
    }
    forall x, y, z | HeadAtMost(x, y) && HeadAtMost(y, z) ensures HeadAtMost(x, z) {
      if x != [] { AtMostTransitive(x[0], y[0], z[0]); }
    }
  }

  lemma {:induction false} ReportHolds(links: set<Link>, components: seq<seq<string>>, others: seq<seq<string>>, c: seq<string>)
    requires IsComponentReport(links, components) && IsComponentReport(links, others) && c in components
    ensures c in others
  {
    assert IsComponent(links, c);
    assert c[0] in c && c[1] in c && c[0] != c[1];
    assert InSameComponent(links, c, c[0], c[1]);
    var d :| d in others && c[0] in d;
    ComponentUnique(links, c, d, c[0]);
  }

  /** There is one report: it depends on the links alone, not on the order they were read in. */
  lemma {:induction false} ReportIsUnique(links: set<Link>, components: seq<seq<string>>, others: seq<seq<string>>)
    requires IsComponentReport(links, components) && IsComponentReport(links, others)
    ensures components == others
  {
    forall c ensures c in components <==> c in others {
      if c in components { ReportHolds(links, components, others, c); }
      if c in others { ReportHolds(links, others, components, c); }
    }
    forall c, d | c in components && d in components && HeadAtMost(c, d) && HeadAtMost(d, c) ensures c == d {
      assert IsComponent(links, c) && IsComponent(links, d);
      AtMostTotal(c[0], d[0]);
      ComponentUnique(links, c, d, c[0]);
    }
    hide IsComponent, Covers, HeadAtMost;
    OrderedListUnique(HeadAtMost, components, others);
  }

  /** More links never split: every old component lies inside one new component. */
  lemma {:induction false} ComponentsNeverSplit(links: set<Link>, more: set<Link>, components: seq<seq<string>>,
                                                others: seq<seq<string>>, c: seq<string>)
    requires links <= more && IsComponentReport(links, components) && IsComponentReport(more, others) && c in components
    ensures exists d :: d in others && forall x :: x in c ==> x in d
  {
    assert IsComponent(links, c);
    assert c[0] in c && c[1] in c && c[0] != c[1];
    assert InSameComponent(links, c, c[0], c[1]);
    ConnectedMonotone<string>(links, more, c[0], c[1]);
    var d :| d in others && c[0] in d;
    assert IsComponent(more, d);
    forall x | x in c ensures x in d {
      assert InSameComponent(links, c, c[0], x);
      ConnectedMonotone<string>(links, more, c[0], x);
      assert InSameComponent(more, d, c[0], x);
    }
  }

  // ---------- collecting the classes ----------

  function LinksOf(edges: seq<Link>): set<Link> {
    set l <- edges
  }

  function Nodes(links: set<Link>): set<string> {
    (set l <- links :: l.0) + (set l <- links :: l.1)
  }

  /** The members read so far, by root. */
  ghost predicate GroupOk(nodes: seq<string>, root: map<string, string>, groups: map<string, seq<string>>, r: string)
    requires r in groups
  {
    && groups[r] != [] && Distinct(groups[r])
    && forall n :: n in groups[r] <==> n in nodes && n in root && root[n] == r
  }

  ghost predicate Grouped(nodes: seq<string>, root: map<string, string>, groups: map<string, seq<string>>, keys: seq<string>) {
    && Lists(keys, groups.Keys)
    && (forall r {:trigger GroupOk(nodes, root, groups, r)} :: r in groups ==> GroupOk(nodes, root, groups, r))
    && (forall n :: n in nodes ==> n in root && root[n] in groups)
  }

  lemma {:induction false} GroupOne(nodes: seq<string>, root: map<string, string>, groups: map<string, seq<string>>,
                                    keys: seq<string>, node: string)
    requires Grouped(nodes, root, groups, keys) && node in root && node !in nodes
    ensures var r := root[node];
            var grown := groups[r := (if r in groups then groups[r] else []) + [node]];
            Grouped(nodes + [node], root, grown, if r in groups then keys else keys + [r])
  {
    var r := root[node];
    var grown := groups[r := (if r in groups then groups[r] else []) + [node]];
    if r in groups {
      assert grown.Keys == groups.Keys;
      assert GroupOk(nodes, root, groups, r);
    } else {
      Listed(keys, groups.Keys, r);
      assert grown.Keys == groups.Keys + {r};
    }
    hide Lists;
    forall s | s in grown ensures GroupOk(nodes + [node], root, grown, s) {
      if s in groups { assert GroupOk(nodes, root, groups, s); }
      if s == r { GroupGrows(nodes, root, groups, node); }
    }
  }

  lemma {:induction false} GroupGrows(nodes: seq<string>, root: map<string, string>, groups: map<string, seq<string>>, node: string)
    requires node in root && node !in nodes
    requires root[node] in groups ==> GroupOk(nodes, root, groups, root[node])
    requires root[node] !in groups ==> forall n :: n in nodes ==> n in root && root[n] != root[node]
    ensures var r := root[node];
            GroupOk(nodes + [node], root, groups[r := (if r in groups then groups[r] else []) + [node]], r)
  {
    var r := root[node];
    var before := if r in groups then groups[r] else [];
    assert forall n :: n in before + [node] <==> n in before || n == node;
    assert forall i :: 0 <= i < |before| ==> before[i] in before;
  }

  /** The groups of two members or more, each sorted. */
  function Kept(groups: map<string, seq<string>>, keys: seq<string>): (kept: seq<seq<string>>)
    requires forall k :: k in keys ==> k in groups
  {
    if keys == [] then []
    else
      var last := |keys| - 1;
      Kept(groups, keys[..last]) + if |groups[keys[last]]| > 1 then [Sort(groups[keys[last]], AtMost)] else []
  }

  lemma {:induction false} KeptHolds(groups: map<string, seq<string>>, keys: seq<string>, c: seq<string>)
    requires forall k :: k in keys ==> k in groups
    ensures c in Kept(groups, keys) <==> exists k :: k in keys && |groups[k]| > 1 && c == Sort(groups[k], AtMost)
  {
    if keys == [] {
    } else {
      var last := |keys| - 1;
      KeptHolds(groups, keys[..last], c);
      assert forall k :: k in keys <==> k in keys[..last] || k == keys[last];
    }
  }

  /** What a sorted group is: the members of one class. */
  lemma {:induction false} GroupIsComponent(parent: map<string, string>, root: map<string, string>, links: set<Link>,
                                            nodes: seq<string>, groups: map<string, seq<string>>, r: string)
    requires Tree(parent, root) && RootsConnect(root, links) && Nodes(links) == root.Keys && Lists(nodes, root.Keys)
    requires r in groups && GroupOk(nodes, root, groups, r) && |groups[r]| > 1
    ensures IsComponent(links, Sort(groups[r], AtMost))
  {
    var c := Sort(groups[r], AtMost);
    AtMostIsTotalPreorder();
    hide AtMost, TotalPreorder;
    SortOrders(groups[r], AtMost);
    SortKeepsMembers(groups[r], AtMost);
    SortKeepsDistinct(groups[r], AtMost);
    hide Sort, Tree;
    forall x, y | x in c ensures InSameComponent(links, c, x, y) {
      assert x in root && root[x] == r;
      assert IsNode(links, y) <==> y in root;
      if y in root { assert Agree(root, links, x, y); }
      assert y in c <==> y in root && root[y] == r;
    }
  }

  lemma {:induction false} KeptIsReport(parent: map<string, string>, root: map<string, string>, links: set<Link>,
                                        nodes: seq<string>, groups: map<string, seq<string>>, keys: seq<string>)
    requires Tree(parent, root) && RootsConnect(root, links) && Nodes(links) == root.Keys && Lists(nodes, root.Keys)
    requires Grouped(nodes, root, groups, keys)
    ensures forall k :: k in keys ==> k in groups
    ensures forall c :: c in Kept(groups, keys) ==> IsComponent(links, c)
    ensures Covers(links, Kept(groups, keys)) && Distinct(Kept(groups, keys))
  {
    hide IsComponent, Sort, AtMost;
    var kept := Kept(groups, keys);
    forall c | c in kept ensures IsComponent(links, c) {
      KeptHolds(groups, keys, c);
      var k :| k in keys && |groups[k]| > 1 && c == Sort(groups[k], AtMost);
      assert GroupOk(nodes, root, groups, k);
      GroupIsComponent(parent, root, links, nodes, groups, k);
    }
    forall x, y | x != y && Connected<string>(links, x, y) ensures exists c :: c in kept && x in c {
      ClassIsKept(parent, root, links, nodes, groups, keys, x, y);
    }
    KeptDistinct(nodes, root, groups, keys);
  }

  lemma {:induction false} ClassIsKept(parent: map<string, string>, root: map<string, string>, links: set<Link>,
                                       nodes: seq<string>, groups: map<string, seq<string>>, keys: seq<string>, x: string, y: string)
    requires Tree(parent, root) && RootsConnect(root, links) && Nodes(links) == root.Keys && Lists(nodes, root.Keys)
    requires Grouped(nodes, root, groups, keys) && x != y && Connected<string>(links, x, y)
    ensures exists c :: c in Kept(groups, keys) && x in c
  {
    hide Sort, AtMost, Tree, RootsConnect, Grouped, Lists;
    ClassIsGrouped(parent, root, links, nodes, groups, keys, x, y);
    KeptHolds(groups, keys, Sort(groups[root[x]], AtMost));
    SortKeepsMembers(groups[root[x]], AtMost);
  }

  lemma {:induction false} ClassIsGrouped(parent: map<string, string>, root: map<string, string>, links: set<Link>,
                                          nodes: seq<string>, groups: map<string, seq<string>>, keys: seq<string>, x: string, y: string)
    requires Tree(parent, root) && RootsConnect(root, links) && Nodes(links) == root.Keys && Lists(nodes, root.Keys)
    requires Grouped(nodes, root, groups, keys) && x != y && Connected<string>(links, x, y)
    ensures forall k :: k in keys ==> k in groups
    ensures x in root && root[x] in keys && x in groups[root[x]] && |groups[root[x]]| > 1
  {
    hide AtMost, Tree, Path, Connected;
    ConnectedAreNodes(links, x, y);
    assert x in Nodes(links) && y in Nodes(links);
    assert Agree(root, links, x, y);
    assert GroupOk(nodes, root, groups, root[x]);
    TwoMembers(groups[root[x]], x, y);
  }

  lemma {:induction false} TwoMembers(s: seq<string>, x: string, y: string)
    requires x in s && y in s && x != y
    ensures |s| > 1
  {}

  /** Different classes have no member in common, so no two lists are the same. */
  lemma {:induction false} KeptDistinct(nodes: seq<string>, root: map<string, string>, groups: map<string, seq<string>>, keys: seq<string>)
    requires Distinct(keys) && forall k :: k in keys ==> k in groups && GroupOk(nodes, root, groups, k)
    ensures Distinct(Kept(groups, keys))
  {
    hide Sort, AtMost;
    if keys == [] {
    } else {
      var last := |keys| - 1;
      var rest := Kept(groups, keys[..last]);
      KeptDistinct(nodes, root, groups, keys[..last]);
      if |groups[keys[last]]| > 1 {
        var c := Sort(groups[keys[last]], AtMost);
        assert c !in rest by {
          KeptHolds(groups, keys[..last], c);
          SortKeepsMembers(groups[keys[last]], AtMost);
          forall k | k in keys[..last] ensures c != Sort(groups[k], AtMost) {
            SortKeepsMembers(groups[k], AtMost);
            assert GroupOk(nodes, root, groups, k) && GroupOk(nodes, root, groups, keys[last]);
            assert groups[k][0] in groups[k] && groups[k][0] in Sort(groups[k], AtMost);
          }
        }
        assert Kept(groups, keys) == rest + [c];
      }
    }
  }

  lemma {:induction false} SortedReport(links: set<Link>, kept: seq<seq<string>>)
    requires (forall c :: c in kept ==> IsComponent(links, c)) && Covers(links, kept) && Distinct(kept)
    ensures IsComponentReport(links, Sort(kept, HeadAtMost))
  {
    HeadAtMostIsTotalPreorder();
    hide IsComponent, HeadAtMost, TotalPreorder;
    SortOrders(kept, HeadAtMost);
    SortKeepsMembers(kept, HeadAtMost);
    SortKeepsDistinct(kept, HeadAtMost);
    hide Sort;
    forall x, y | x != y && Connected<string>(links, x, y) ensures exists c :: c in Sort(kept, HeadAtMost) && x in c {
      var c :| c in kept && x in c;
      assert c in Sort(kept, HeadAtMost);
    }
  }

  /** Unite along every edge, collect the classes, keep and sort those with two members or more. */
  method ConnectedComponents(edges: seq<Link>) returns (components: seq<seq<string>>)
    ensures IsComponentReport(LinksOf(edges), components)
  {
    hide Tree, RootsConnect, Lists, Grouped, IsComponentReport, Sort, Kept, Nodes;
    var forest := new Forest();
    NoNodes();
    var i := 0;
    while i < |edges|
      invariant 0 <= i <= |edges| && fresh(forest) && forest.Valid()
      invariant forest.links == LinksOf(edges[..i]) && forest.parent.Keys == Nodes(forest.links)
    {
      var edge := edges[i];
      MoreNodes(forest.links, edge);
      assert edges[..i + 1] == edges[..i] + [edge];
      forest.Add(edge.0);
      forest.Add(edge.1);
      forest.Union(edge.0, edge.1);
      i := i + 1;
    }
    assert edges[..i] == edges;
    ghost var root := forest.root;
    SameKeys(forest.parent, root);
    var nodes := forest.order;
    var groups: map<string, seq<string>>, keys: seq<string> := map[], [];
    NothingGrouped(root);
    i := 0;
    while i < |nodes|
      invariant 0 <= i <= |nodes| && forest.Valid() && fresh(forest)
      invariant forest.root == root && forest.order == nodes && forest.parent.Keys == root.Keys
      invariant forest.links == LinksOf(edges)
      invariant Grouped(nodes[..i], root, groups, keys)
    {
      var node := nodes[i];
      NextNode(nodes, root.Keys, i);
      assert nodes[..i + 1] == nodes[..i] + [node];
      GroupOne(nodes[..i], root, groups, keys, node);
      var r := forest.Find(node);
      if r !in groups { keys := keys + [r]; }
      groups := groups[r := (if r in groups then groups[r] else []) + [node]];
      i := i + 1;
    }
    assert nodes[..i] == nodes;
    KeptIsReport(forest.parent, root, forest.links, nodes, groups, keys);
    SortedReport(forest.links, Kept(groups, keys));
    return Sort(Kept(groups, keys), HeadAtMost);
  }

  lemma {:induction false} NoNodes()
    ensures Nodes({}) == {}
  {}

  lemma {:induction false} MoreNodes(links: set<Link>, edge: Link)
    ensures Nodes(links + {edge}) == Nodes(links) + {edge.0} + {edge.1}
  {}

  lemma {:induction false} NothingGrouped(root: map<string, string>)
    ensures Grouped([], root, map[], [])
  {}

  lemma {:induction false} NextNode(nodes: seq<string>, keys: set<string>, i: nat)
    requires Lists(nodes, keys) && i < |nodes|
    ensures nodes[i] in keys && nodes[i] !in nodes[..i]
  {
    assert nodes[i] in nodes;
  }
}
