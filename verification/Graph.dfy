/** The shape of an extracted graph (`graph_shape` in
    `scripts/extract_metrics.py`): its concepts, how many of them hang by one
    edge, and its connected components, by a union-find with path halving. */
module Graph {
  import opened Common
  import opened Connectivity

  type Name = string
  type Edge = (Name, Name)

  datatype GraphShape = GraphShape(concepts: nat, isolatedShare: Option<real>, components: nat)

  function Ratio(numerator: nat, denominator: nat): Option<real> {
    if denominator == 0 then None else Some(numerator as real / denominator as real)
  }

  /** Every end of every edge: `Ends(edges)[x]` is the degree of `x`, to which a
      loop adds two. */
  function Ends(edges: seq<Edge>): multiset<Name> {
    if edges == [] then multiset{}
    else
      var last := edges[|edges| - 1];
      Ends(edges[..|edges| - 1]) + multiset{last.0, last.1}
  }

  lemma {:induction false} EndsNone()
    ensures Ends([]) == multiset{}
  {
  }

  lemma {:induction false} EndsLast(edges: seq<Edge>, e: Edge)
    ensures Ends(edges + [e]) == Ends(edges) + multiset{e.0, e.1}
  {
    assert (edges + [e])[..|edges|] == edges;
  }

  function Isolated(ends: multiset<Name>): set<Name> {
    set x | x in ends && ends[x] == 1
  }

  /** The class of `x` under the equivalence the edges generate. */
  ghost function Component(edges: seq<Edge>, x: Name): set<Name> {
    set y | y in Nodes(edges) && Connected(edges, x, y)
  }

  ghost function Components(edges: seq<Edge>): set<set<Name>> {
    set x | x in Nodes(edges) :: Component(edges, x)
  }

  ghost function ShapeOf(edges: seq<Edge>): GraphShape {
    GraphShape(|Nodes(edges)|, Ratio(|Isolated(Ends(edges))|, |Nodes(edges)|), |Components(edges)|)
  }

  lemma {:induction false} EndsAreNodes(edges: seq<Edge>)
    ensures forall x :: x in Ends(edges) <==> x in Nodes(edges)
  {
    if edges != [] {
      var n := |edges| - 1;
      EndsAreNodes(edges[..n]);
      NodesMore(edges[..n], edges[n].0, edges[n].1);
      assert edges == edges[..n] + [(edges[n].0, edges[n].1)];
    }
  }

  lemma {:induction false} LinkFacts(parent: map<Name, Name>, f: Shape<Name>, x: Name)
    requires Forest(parent, f) && x in parent
    ensures var p := parent[x];
      && p in parent && parent[p] in parent && f.root[parent[p]] == f.root[x]
      && (p == x ==> f.root[x] == x)
      && (p != x ==> f.rank[x] < f.rank[parent[p]])
      && f.rank[x] <= f.top
  {
    assert Placed(parent, f, x) && Placed(parent, f, parent[x]);
  }

  /** The root of a node, halving the path on the way: each visited node is linked
      to its grandparent. */
  method Find(parent: map<Name, Name>, ghost f: Shape<Name>, start: Name) returns (root: Name, halved: map<Name, Name>)
    requires Forest(parent, f) && start in parent
    ensures Forest(halved, f) && root == f.root[start]
  {
    hide Placed;
    root, halved := start, parent;
    LinkFacts(halved, f, root);
    while halved[root] != root
      invariant Forest(halved, f) && root in halved && f.root[root] == f.root[start]
      decreases f.top - f.rank[root]
    {
      LinkFacts(halved, f, root);
      Relinked(halved, f, root, halved[halved[root]]);
      halved := halved[root := halved[halved[root]]];
      root := halved[root];
      LinkFacts(halved, f, root);
    }
    LinkFacts(halved, f, root);
  }

  lemma AddedForest(parent: map<Name, Name>, f: Shape<Name>, edges: seq<Edge>, a: Name, b: Name)
    requires Forest(parent, f) && Represents(f, edges)
    ensures var once := if a in parent then parent else parent[a := a];
      var next := if b in once then once else once[b := b];
      Forest(next, Grown(Grown(f, a), b)) && a in next && b in next
  {
    hide Placed, Grown, Connected;
    GrownForest(parent, f, a);
    var once := if a in parent then parent else parent[a := a];
    GrownForest(once, Grown(f, a), b);
  }

  /** Both ends become nodes. */
  method AddNodes(before: map<Name, Name>, ghost f: Shape<Name>, ghost edges: seq<Edge>, subject: Name, obj: Name)
    returns (parent: map<Name, Name>, ghost g: Shape<Name>)
    requires Forest(before, f) && Represents(f, edges)
    ensures g == Grown(Grown(f, subject), obj) && Forest(parent, g)
    ensures parent.Keys == g.root.Keys && subject in parent && obj in parent
  {
    hide Placed, Grown, Connected, Forest, Represents;
    parent := before;
    if subject !in parent { parent := parent[subject := subject]; }
    if obj !in parent { parent := parent[obj := obj]; }
    AddedForest(before, f, edges, subject, obj);
    g := Grown(Grown(f, subject), obj);
    SameNodesOf(parent, g);
  }

  /** One edge: both ends become nodes, then the root of the subject is linked to
      the root of the object, which is found first. */
  method AddEdge(before: map<Name, Name>, ghost f: Shape<Name>, ghost edges: seq<Edge>, subject: Name, obj: Name)
    returns (parent: map<Name, Name>, ghost g: Shape<Name>)
    requires Forest(before, f) && Represents(f, edges)
    ensures Forest(parent, g) && Represents(g, edges + [(subject, obj)])
  {
    ForestClosed(before, f);
    hide Placed, Grown, United, Connected, Forest, Represents, Closed;
    parent, g := AddNodes(before, f, edges, subject, obj);
    var to, from;
    to, parent := Find(parent, g, obj);
    SameNodesOf(parent, g);
    from, parent := Find(parent, g, subject);
    PairJoined(parent, f, g, edges, subject, obj);
    parent := parent[from := to];
    g := United(g, from, to);
  }

  lemma {:induction false} SameNodesOf(parent: map<Name, Name>, f: Shape<Name>)
    requires Forest(parent, f)
    ensures parent.Keys == f.root.Keys
  {
  }

  lemma {:induction false} EmptyForest()
    ensures var f: Shape<Name> := Shape(map[], map[], 0);
      Forest(map[], f) && Represents(f, [])
  {
  }

  /** Counts the concepts, the share of those with a single edge end, and the
      components. */
  method Measure(edges: seq<Edge>) returns (shape: GraphShape)
    ensures shape == ShapeOf(edges)
  {
    hide Forest, Represents, Connected, Ends;
    EndsNone();
    var degree, parent := multiset{}, map[];
    ghost var f: Shape<Name> := Shape(map[], map[], 0);
    EmptyForest();
    for i := 0 to |edges|
      invariant degree == Ends(edges[..i])
      invariant Forest(parent, f) && Represents(f, edges[..i])
    {
      assert edges[..i + 1] == edges[..i] + [edges[i]];
      EndsLast(edges[..i], edges[i]);
      degree := degree + multiset{edges[i].0, edges[i].1};
      parent, f := AddEdge(parent, f, edges[..i], edges[i].0, edges[i].1);
    }
    assert edges[..|edges|] == edges;
    EndsAreNodes(edges);
    var concepts := set x | x in degree;
    assert concepts == Nodes(edges);
    var isolated := Isolated(degree);
    var roots := Roots(parent, f);
    RootsAreComponents(parent, f, edges);
    shape := GraphShape(|concepts|, Ratio(|isolated|, |concepts|), |roots|);
  }

  ghost function RootsOf(f: Shape<Name>): set<Name> {
    set x | x in f.root :: f.root[x]
  }

  /** The distinct roots, found node by node in no particular order. */
  method Roots(given: map<Name, Name>, ghost f: Shape<Name>) returns (roots: set<Name>)
    requires Forest(given, f)
    ensures roots == RootsOf(f)
  {
    hide Forest;
    var parent, left := given, given.Keys;
    SameNodesOf(given, f);
    roots := {};
    while left != {}
      invariant Forest(parent, f) && left <= f.root.Keys
      invariant roots == set x | x in f.root && x !in left :: f.root[x]
      decreases |left|
    {
      var node :| node in left;
      var root;
      SameNodesOf(parent, f);
      root, parent := Find(parent, f, node);
      left := left - {node};
      roots := roots + {root};
    }
  }

  lemma {:induction false} DistinctComponents(edges: seq<Edge>, s: set<Name>)
    requires forall x, y | x in s && y in s && Component(edges, x) == Component(edges, y) :: x == y
    ensures |set x | x in s :: Component(edges, x)| == |s|
  {
    hide Component;
    var images := set x | x in s :: Component(edges, x);
    if s == {} {
      assert images == {};
    } else {
      var x :| x in s;
      DistinctComponents(edges, s - {x});
      assert images == (set y | y in s - {x} :: Component(edges, y)) + {Component(edges, x)};
    }
  }

  lemma {:induction false} ComponentOfRoot(parent: map<Name, Name>, f: Shape<Name>, edges: seq<Edge>, x: Name, y: Name)
    requires Forest(parent, f) && Represents(f, edges) && x in f.root && y in f.root
    ensures Component(edges, x) == Component(edges, y) <==> f.root[x] == f.root[y]
  {
    hide Connected;
    assert SameTree(f, x, y) <==> Connected(edges, x, y);
    assert SameTree(f, y, y) <==> Connected(edges, y, y);
    if f.root[x] == f.root[y] {
      forall z | z in Nodes(edges) ensures Connected(edges, x, z) <==> Connected(edges, y, z) {
        assert SameTree(f, x, z) <==> Connected(edges, x, z);
        assert SameTree(f, y, z) <==> Connected(edges, y, z);
      }
    } else {
      assert y in Component(edges, y);
    }
  }

  lemma {:induction false} RootsAreComponents(parent: map<Name, Name>, f: Shape<Name>, edges: seq<Edge>)
    requires Forest(parent, f) && Represents(f, edges)
    ensures |RootsOf(f)| == |Components(edges)|
  {
    hide Connected, Component, Forest, Represents;
    var roots := RootsOf(f);
    forall x, y | x in roots && y in roots && Component(edges, x) == Component(edges, y) ensures x == y {
      RootComponents(parent, f, edges, x, y);
    }
    DistinctComponents(edges, roots);
    ImagesAreComponents(parent, f, edges);
  }

  lemma {:induction false} RootComponents(parent: map<Name, Name>, f: Shape<Name>, edges: seq<Edge>, x: Name, y: Name)
    requires Forest(parent, f) && Represents(f, edges) && x in RootsOf(f) && y in RootsOf(f)
    ensures Component(edges, x) == Component(edges, y) ==> x == y
  {
    hide Connected, Component, Placed;
    var a :| a in f.root && f.root[a] == x;
    var b :| b in f.root && f.root[b] == y;
    RootsAreFixed(parent, f, a);
    RootsAreFixed(parent, f, b);
    ComponentOfRoot(parent, f, edges, x, y);
  }

  lemma {:induction false} ImagesAreComponents(parent: map<Name, Name>, f: Shape<Name>, edges: seq<Edge>)
    requires Forest(parent, f) && Represents(f, edges)
    ensures (set x | x in RootsOf(f) :: Component(edges, x)) == Components(edges)
  {
    hide Connected, Component, Placed;
    forall x | x in f.root ensures f.root[x] in f.root && Component(edges, x) == Component(edges, f.root[x]) {
      RootsAreFixed(parent, f, x);
      ComponentOfRoot(parent, f, edges, x, f.root[x]);
    }
    var images := set x | x in RootsOf(f) :: Component(edges, x);
    forall c | c in Components(edges) ensures c in images {
      var x :| x in Nodes(edges) && c == Component(edges, x);
      assert f.root[x] in RootsOf(f);
    }
  }

  // ------------------------------------------------------------- order of edges

  lemma {:induction false} EndsAppend(a: seq<Edge>, b: seq<Edge>)
    ensures Ends(a + b) == Ends(a) + Ends(b)
  {
    hide Ends;
    EndsNone();
    if b == [] {
      assert a + b == a;
    } else {
      var n := |b| - 1;
      EndsAppend(a, b[..n]);
      assert a + b == (a + b[..n]) + [b[n]] && b == b[..n] + [b[n]];
      EndsLast(a + b[..n], b[n]);
      EndsLast(b[..n], b[n]);
    }
  }

  /** Taking the element at `k` out. */
  function Removed(s: seq<Edge>, k: nat): seq<Edge>
    requires k < |s|
  {
    s[..k] + s[k + 1..]
  }

  lemma {:induction false} RemovedOne(s: seq<Edge>, k: nat)
    requires k < |s|
    ensures multiset(Removed(s, k)) == multiset(s) - multiset{s[k]}
  {
    assert s == s[..k] + [s[k]] + s[k + 1..];
    assert multiset(s) == multiset(s[..k]) + multiset{s[k]} + multiset(s[k + 1..]);
  }

  lemma {:induction false} EndsRemoved(s: seq<Edge>, k: nat)
    requires k < |s|
    ensures Ends(s) == Ends(Removed(s, k)) + multiset{s[k].0, s[k].1}
  {
    hide Ends;
    assert s == s[..k] + [s[k]] + s[k + 1..];
    EndsAppend(s[..k], s[k + 1..]);
    EndsLast(s[..k], s[k]);
    EndsAppend(s[..k] + [s[k]], s[k + 1..]);
  }

  lemma {:induction false} EndsIgnoreOrder(a: seq<Edge>, b: seq<Edge>)
    requires multiset(a) == multiset(b)
    ensures Ends(a) == Ends(b)
  {
    hide Ends;
    if a == [] {
      assert |multiset(b)| == |b|;
    } else {
      assert a[0] in multiset(a);
      assert a[0] in b;
      var k :| 0 <= k < |b| && b[k] == a[0];
      RemovedOne(a, 0);
      RemovedOne(b, k);
      EndsIgnoreOrder(Removed(a, 0), Removed(b, k));
      EndsRemoved(a, 0);
      EndsRemoved(b, k);
    }
  }

  /** The shape does not depend on the order the edges come in. */
  lemma {:induction false} ShapeIgnoresOrder(a: seq<Edge>, b: seq<Edge>)
    requires multiset(a) == multiset(b)
    ensures ShapeOf(a) == ShapeOf(b)
  {
    hide Connected;
    hide Components;
    EndsIgnoreOrder(a, b);
    SameEdges(a, b);
    ComponentsIgnoreOrder(a, b);
  }

  lemma SameEdges(a: seq<Edge>, b: seq<Edge>)
    requires multiset(a) == multiset(b)
    ensures forall e: Edge :: e in a <==> e in b
    ensures Nodes(a) == Nodes(b)
  {
    forall e: Edge ensures e in a <==> e in b {
      assert e in a <==> e in multiset(a);
      assert e in b <==> e in multiset(b);
    }
  }

  lemma ComponentsIgnoreOrder(a: seq<Edge>, b: seq<Edge>)
    requires (forall e: Edge :: e in a <==> e in b) && Nodes(a) == Nodes(b)
    ensures Components(a) == Components(b)
  {
    hide Connected, Nodes;
    forall x ensures Component(a, x) == Component(b, x) {
      forall y ensures Connected(a, x, y) <==> Connected(b, x, y) {
        if Connected(a, x, y) { Monotone(a, b, x, y); }
        if Connected(b, x, y) { Monotone(b, a, x, y); }
      }
    }
  }

  // ---------------------------------------------------------------- what a degree is

  /** The places of the edges that begin, and of those that end, at `x`. */
  function Begins(edges: seq<Edge>, x: Name): set<nat> {
    set i: nat | i < |edges| && edges[i].0 == x
  }

  function Arrives(edges: seq<Edge>, x: Name): set<nat> {
    set i: nat | i < |edges| && edges[i].1 == x
  }

  lemma BeginsMore(edges: seq<Edge>, e: Edge, x: Name)
    ensures |Begins(edges + [e], x)| == |Begins(edges, x)| + if e.0 == x then 1 else 0
  {
    assert Begins(edges + [e], x) == Begins(edges, x) + if e.0 == x then {|edges|} else {};
  }

  lemma ArrivesMore(edges: seq<Edge>, e: Edge, x: Name)
    ensures |Arrives(edges + [e], x)| == |Arrives(edges, x)| + if e.1 == x then 1 else 0
  {
    assert Arrives(edges + [e], x) == Arrives(edges, x) + if e.1 == x then {|edges|} else {};
  }

  /** A node's degree is the edges that begin at it and those that end at it, a loop
      being both; an isolated node is at one end of one edge. */
  lemma {:induction false} DegreeCounts(edges: seq<Edge>, x: Name)
    ensures Ends(edges)[x] == |Begins(edges, x)| + |Arrives(edges, x)|
    ensures x in Isolated(Ends(edges)) <==> |Begins(edges, x)| + |Arrives(edges, x)| == 1
  {
    if edges == [] {
      EndsNone();
    } else {
      var n := |edges| - 1;
      var init, e := edges[..n], edges[n];
      DegreeCounts(init, x);
      BeginsMore(init, e, x);
      ArrivesMore(init, e, x);
      EndsLast(init, e);
      assert edges == init + [e];
      hide Begins, Arrives, Ends;
    }
  }

  /** The isolated share is a fraction of the concepts, and there is one exactly when
      there are any. */
  lemma {:induction false} ShareMeans(edges: seq<Edge>)
    ensures var s := ShapeOf(edges);
      && (s.isolatedShare.None? <==> s.concepts == 0)
      && (s.isolatedShare.Some? ==>
            0.0 <= s.isolatedShare.value <= 1.0
            && s.isolatedShare.value * s.concepts as real == |Isolated(Ends(edges))| as real)
  {
    EndsAreNodes(edges);
    hide Components;
    assert Isolated(Ends(edges)) <= Nodes(edges);
    Fewer(Isolated(Ends(edges)), Nodes(edges));
    if |Nodes(edges)| > 0 { Fraction(|Isolated(Ends(edges))|, |Nodes(edges)|); }
  }

  lemma Fewer<T>(a: set<T>, b: set<T>)
    requires a <= b
    ensures |a| <= |b|
  {
    assert b == a + (b - a);
  }

  lemma Fraction(n: nat, d: nat)
    requires n <= d && d > 0
    ensures 0.0 <= n as real / d as real <= 1.0 && n as real / d as real * d as real == n as real
  {
  }
}
