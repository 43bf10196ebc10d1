/** The equivalence a list of pairs generates, by walks along them in either
    direction, and forests of parent links that represent it. */
module Connectivity {
  import opened Common

  ghost predicate Joined<T(!new)>(pairs: seq<(T, T)>, x: T, y: T) {
    (x, y) in pairs || (y, x) in pairs
  }

  ghost predicate Walk<T(!new)>(pairs: seq<(T, T)>, w: seq<T>) {
    w != [] && forall i | 0 <= i < |w| - 1 :: Joined(pairs, w[i], w[i + 1])
  }

  ghost predicate WalkFrom<T(!new)>(pairs: seq<(T, T)>, w: seq<T>, x: T, y: T) {
    Walk(pairs, w) && w[0] == x && w[|w| - 1] == y
  }

  /** The reflexive, symmetric and transitive closure of the pairs. */
  ghost predicate Connected<T(!new)>(pairs: seq<(T, T)>, x: T, y: T) {
    exists w :: WalkFrom(pairs, w, x, y)
  }

  /** The elements the pairs mention. */
  function Nodes<T>(pairs: seq<(T, T)>): set<T> {
    (set p | p in pairs :: p.0) + (set p | p in pairs :: p.1)
  }

  lemma Reflexive<T(!new)>(pairs: seq<(T, T)>, x: T)
    ensures Connected(pairs, x, x)
  {
    assert WalkFrom(pairs, [x], x, x);
  }

  lemma Transitive<T(!new)>(pairs: seq<(T, T)>, x: T, y: T, z: T)
    requires Connected(pairs, x, y) && Connected(pairs, y, z)
    ensures Connected(pairs, x, z)
  {
    var a :| WalkFrom(pairs, a, x, y);
    var b :| WalkFrom(pairs, b, y, z);
    var w := a + b[1..];
    forall i | 0 <= i < |w| - 1 ensures Joined(pairs, w[i], w[i + 1]) {
      if i == |a| - 1 { assert w[i] == b[0] && w[i + 1] == b[1]; }
      else if i >= |a| { assert w[i] == b[i - |a| + 1] && w[i + 1] == b[i - |a| + 2]; }
    }
    assert WalkFrom(pairs, w, x, z);
  }

  function Reverse<T>(s: seq<T>): (r: seq<T>)
    ensures |r| == |s|
  {
    seq(|s|, i requires 0 <= i < |s| => s[|s| - 1 - i])
  }

  lemma Symmetric<T(!new)>(pairs: seq<(T, T)>, x: T, y: T)
    ensures Connected(pairs, x, y) ==> Connected(pairs, y, x)
  {
    if w :| WalkFrom(pairs, w, x, y) {
      var r := Reverse(w);
      forall i | 0 <= i < |r| - 1 ensures Joined(pairs, r[i], r[i + 1]) {
        assert Joined(pairs, w[|w| - 2 - i], w[|w| - 1 - i]);
      }
      assert WalkFrom(pairs, r, y, x);
    }
  }

  lemma Monotone<T(!new)>(pairs: seq<(T, T)>, more: seq<(T, T)>, x: T, y: T)
    requires Connected(pairs, x, y)
    requires forall a, b | Joined(pairs, a, b) :: Joined(more, a, b)
    ensures Connected(more, x, y)
  {
    var w :| WalkFrom(pairs, w, x, y);
    assert WalkFrom(more, w, x, y);
  }

  /** What one more pair connects: what was connected, and what it bridges. */
  ghost predicate Bridged<T(!new)>(pairs: seq<(T, T)>, a: T, b: T, x: T, y: T) {
    || Connected(pairs, x, y)
    || (Connected(pairs, x, a) && Connected(pairs, b, y))
    || (Connected(pairs, x, b) && Connected(pairs, a, y))
  }

  lemma BridgeStep<T(!new)>(pairs: seq<(T, T)>, a: T, b: T, x: T, y: T, z: T)
    requires Bridged(pairs, a, b, x, y) && Joined(pairs + [(a, b)], y, z)
    ensures Bridged(pairs, a, b, x, z)
  {
    if Joined(pairs, y, z) {
      assert WalkFrom(pairs, [y, z], y, z);
      if Connected(pairs, x, y) { Transitive(pairs, x, y, z); }
      if Connected(pairs, b, y) { Transitive(pairs, b, y, z); }
      if Connected(pairs, a, y) { Transitive(pairs, a, y, z); }
    } else {
      Reflexive(pairs, a);
      Reflexive(pairs, b);
    }
  }

  lemma {:induction false} WalkBridges<T(!new)>(pairs: seq<(T, T)>, a: T, b: T, w: seq<T>)
    requires Walk(pairs + [(a, b)], w)
    ensures Bridged(pairs, a, b, w[0], w[|w| - 1])
  {
    if |w| == 1 {
      Reflexive(pairs, w[0]);
    } else {
      var init := w[..|w| - 1];
      forall i | 0 <= i < |init| - 1 ensures Joined(pairs + [(a, b)], init[i], init[i + 1]) {
        assert Joined(pairs + [(a, b)], w[i], w[i + 1]);
      }
      WalkBridges(pairs, a, b, init);
      assert Joined(pairs + [(a, b)], w[|w| - 2], w[|w| - 2 + 1]);
      BridgeStep(pairs, a, b, w[0], w[|w| - 2], w[|w| - 1]);
    }
  }

  lemma {:induction false} OnePairMore<T(!new)>(pairs: seq<(T, T)>, a: T, b: T, x: T, y: T)
    ensures Connected(pairs + [(a, b)], x, y) <==> Bridged(pairs, a, b, x, y)
  {
    var more := pairs + [(a, b)];
    if Connected(more, x, y) {
      var w :| WalkFrom(more, w, x, y);
      WalkBridges(pairs, a, b, w);
    }
    if Bridged(pairs, a, b, x, y) {
      assert WalkFrom(more, [a, b], a, b) && WalkFrom(more, [b, a], b, a);
      if Connected(pairs, x, y) {
        Monotone(pairs, more, x, y);
      } else if Connected(pairs, x, a) && Connected(pairs, b, y) {
        Monotone(pairs, more, x, a);
        Monotone(pairs, more, b, y);
        Transitive(more, x, a, b);
        Transitive(more, x, b, y);
      } else {
        Monotone(pairs, more, x, b);
        Monotone(pairs, more, a, y);
        Transitive(more, x, b, a);
        Transitive(more, x, a, y);
      }
    }
  }

  /** What no pair mentions is connected to itself alone. */
  lemma Alone<T(!new)>(pairs: seq<(T, T)>, x: T, y: T)
    requires x !in Nodes(pairs)
    ensures Connected(pairs, x, y) <==> x == y
  {
    Reflexive(pairs, x);
    if Connected(pairs, x, y) {
      var w :| WalkFrom(pairs, w, x, y);
      if |w| > 1 { NodesJoined(pairs, w[0], w[0 + 1]); }
    }
  }

  lemma NodesJoined<T(!new)>(pairs: seq<(T, T)>, x: T, y: T)
    requires Joined(pairs, x, y)
    ensures x in Nodes(pairs) && y in Nodes(pairs)
  {
    if (x, y) in pairs {
      assert (x, y).0 == x && (x, y).1 == y;
    } else {
      assert (y, x).0 == y && (y, x).1 == x;
    }
  }

  lemma ConnectedNodes<T(!new)>(pairs: seq<(T, T)>, x: T, y: T)
    requires Connected(pairs, x, y) && x in Nodes(pairs)
    ensures y in Nodes(pairs)
  {
    if y !in Nodes(pairs) {
      Symmetric(pairs, x, y);
      Alone(pairs, y, x);
    }
  }

  // --------------------------------------------------------------------- forests

  /** Where each node's links lead, and how high it stands: a link always climbs. */
  datatype Shape<T> = Shape(root: map<T, T>, rank: map<T, nat>, top: nat)

  /** Node `x` and the link out of it. */
  ghost predicate Placed<T(!new)>(parent: map<T, T>, f: Shape<T>, x: T)
    requires x in parent && x in f.root && x in f.rank
  {
    var p, r := parent[x], f.root[x];
    && p in f.root && p in f.rank && r in parent && r in f.rank && p in parent
    && f.root[p] == r && parent[r] == r
    && (p == x <==> r == x)
    && (p != x ==> f.rank[x] < f.rank[p])
    && (r != x ==> f.rank[x] < f.rank[r])
    && f.rank[x] <= f.top
  }

  ghost predicate SameNodes<T(!new)>(parent: map<T, T>, f: Shape<T>) {
    parent.Keys == f.root.Keys && parent.Keys == f.rank.Keys
  }

  /** The parent links form an acyclic forest with the roots of `f`. */
  ghost predicate Forest<T(!new)>(parent: map<T, T>, f: Shape<T>) {
    && SameNodes(parent, f)
    && forall x {:trigger Placed(parent, f, x)} | x in parent :: Placed(parent, f, x)
  }

  lemma RootsAreFixed<T(!new)>(parent: map<T, T>, f: Shape<T>, x: T)
    requires Forest(parent, f) && x in parent
    ensures f.root[x] in parent && f.root[f.root[x]] == f.root[x]
  {
    assert Placed(parent, f, x);
    assert Placed(parent, f, f.root[x]);
  }

  /** A new node is its own root. */
  function Grown<T>(f: Shape<T>, x: T): (g: Shape<T>)
    ensures g.root.Keys == f.root.Keys + {x}
    ensures x !in f.root ==> g.root[x] == x
    ensures forall y | y in f.root :: g.root[y] == f.root[y]
  {
    if x in f.root then f else Shape(f.root[x := x], f.rank[x := 0], f.top)
  }

  lemma GrownForest<T(!new)>(parent: map<T, T>, f: Shape<T>, x: T)
    requires Forest(parent, f)
    ensures Forest(if x in parent then parent else parent[x := x], Grown(f, x))
  {
    hide Placed;
    if x !in parent {
      var next, g := parent[x := x], Grown(f, x);
      assert x !in f.root && x !in f.rank;
      forall y | y in next ensures Placed(next, g, y) {
        GrownPlaced(parent, f, x, y);
      }
    }
  }

  lemma GrownPlaced<T(!new)>(parent: map<T, T>, f: Shape<T>, x: T, y: T)
    requires Forest(parent, f) && x !in parent && y in parent[x := x]
    ensures Placed(parent[x := x], Grown(f, x), y)
  {
    if y != x { assert Placed(parent, f, y); }
  }

  /** Relinking a node to another one higher on its way keeps the roots: both
      compression and halving. */
  lemma {:induction false} Relinked<T(!new)>(parent: map<T, T>, f: Shape<T>, x: T, up: T)
    requires Forest(parent, f) && x in parent && up in parent
    requires f.root[up] == f.root[x] && f.rank[x] < f.rank[up]
    ensures Forest(parent[x := up], f)
  {
    var next := parent[x := up];
    RootBelow(parent, f, x, up);
    assert next.Keys == parent.Keys;
    hide Placed;
    forall y | y in next ensures Placed(next, f, y) {
      RelinkedPlaced(parent, f, x, up, y);
    }
  }

  lemma RootBelow<T(!new)>(parent: map<T, T>, f: Shape<T>, x: T, up: T)
    requires Forest(parent, f) && x in parent && up in parent
    requires f.root[up] == f.root[x] && f.rank[x] < f.rank[up]
    ensures f.root[x] != x
  {
    hide Placed;
    if f.root[x] == x { RootIsHighest(parent, f, up); }
  }

  lemma RelinkedPlaced<T(!new)>(parent: map<T, T>, f: Shape<T>, x: T, up: T, y: T)
    requires Forest(parent, f) && x in parent && up in parent && y in parent
    requires f.root[up] == f.root[x] != x && f.rank[x] < f.rank[up]
    ensures Placed(parent[x := up], f, y)
  {
    RootsAreFixed(parent, f, y);
    assert Placed(parent, f, y) && Placed(parent, f, up);
  }

  lemma RootIsHighest<T(!new)>(parent: map<T, T>, f: Shape<T>, x: T)
    requires Forest(parent, f) && x in parent
    ensures f.root[x] in parent && f.rank[x] <= f.rank[f.root[x]]
  {
    assert Placed(parent, f, x);
  }

  /** Linking one root under another. */
  function United<T>(f: Shape<T>, a: T, b: T): (g: Shape<T>)
    requires a in f.rank && b in f.rank
    ensures g.root.Keys == f.root.Keys && g.rank.Keys == f.rank.Keys
    ensures forall x | x in f.root :: g.root[x] == if f.root[x] == a then b else f.root[x]
  {
    if a == b then f
    else
      var height := Max(f.rank[b], f.rank[a] + 1);
      Shape(map x | x in f.root :: if f.root[x] == a then b else f.root[x], f.rank[b := height], Max(f.top, height))
  }

  lemma UnitedForest<T(!new)>(parent: map<T, T>, f: Shape<T>, a: T, b: T)
    requires Forest(parent, f) && a in parent && b in parent && f.root[a] == a && f.root[b] == b
    ensures Forest(parent[a := b], United(f, a, b))
  {
    hide United, Placed;
    if a == b {
      assert Placed(parent, f, a);
      SelfLink(parent, f, a);
    } else {
      var g, next := United(f, a, b), parent[a := b];
      assert next.Keys == parent.Keys;
      forall x | x in next ensures Placed(next, g, x) {
        UnitedPlaced(parent, f, a, b, x);
      }
    }
  }

  lemma SelfLink<T(!new)>(parent: map<T, T>, f: Shape<T>, a: T)
    requires Forest(parent, f) && a in parent && f.root[a] == a
    ensures parent[a := a] == parent && United(f, a, a) == f
  {
    assert Placed(parent, f, a);
  }

  lemma UnitedPlaced<T(!new)>(parent: map<T, T>, f: Shape<T>, a: T, b: T, x: T)
    requires Forest(parent, f) && a in parent && b in parent && f.root[a] == a && f.root[b] == b
    requires a != b && x in parent
    ensures Placed(parent[a := b], United(f, a, b), x)
  {
    assert Placed(parent, f, a) && Placed(parent, f, b) && Placed(parent, f, x);
    RootsAreFixed(parent, f, x);
  }

  /** The forest's trees are the classes of the pairs. */
  ghost predicate Represents<T(!new)>(f: Shape<T>, pairs: seq<(T, T)>) {
    && f.root.Keys == Nodes(pairs)
    && forall x, y | x in f.root && y in f.root :: SameTree(f, x, y) <==> Connected(pairs, x, y)
  }

  ghost predicate SameTree<T(!new)>(f: Shape<T>, x: T, y: T)
    requires x in f.root && y in f.root
  {
    f.root[x] == f.root[y]
  }

  lemma NodesMore<T(!new)>(pairs: seq<(T, T)>, a: T, b: T)
    ensures Nodes(pairs + [(a, b)]) == Nodes(pairs) + {a, b}
  {
    var more := pairs + [(a, b)];
    assert (a, b) in more && (a, b).0 == a && (a, b).1 == b;
    forall p | p in pairs ensures p in more { }
  }

  /** Every root is a node, and every node has a rank. */
  ghost predicate Closed<T(!new)>(f: Shape<T>) {
    f.root.Keys == f.rank.Keys && forall x | x in f.root :: f.root[x] in f.root
  }

  /** Growing by a pair's ends and uniting their roots represents the pair too. */
  lemma PairRepresented<T(!new)>(f: Shape<T>, pairs: seq<(T, T)>, a: T, b: T)
    requires Represents(f, pairs) && Closed(f)
    ensures var g := Grown(Grown(f, a), b); g.root[a] in g.rank && g.root[b] in g.rank
    ensures var g := Grown(Grown(f, a), b);
      Represents(United(g, g.root[a], g.root[b]), pairs + [(a, b)])
  {
    hide Grown, United, Connected, Closed;
    EndsRooted(f, a, b);
    var g := Grown(Grown(f, a), b);
    var h := United(g, g.root[a], g.root[b]);
    NodesMore(pairs, a, b);
    hide SameTree;
    forall x, y | x in h.root && y in h.root ensures SameTree(h, x, y) <==> Connected(pairs + [(a, b)], x, y) {
      UnitedRepresents(f, pairs, a, b, x, y);
    }
  }

  lemma GrownClosed<T(!new)>(f: Shape<T>, x: T)
    requires Closed(f)
    ensures Closed(Grown(f, x))
  {
  }

  lemma EndsRooted<T(!new)>(f: Shape<T>, a: T, b: T)
    requires Closed(f)
    ensures var g := Grown(Grown(f, a), b); g.root[a] in g.rank && g.root[b] in g.rank
  {
    hide Grown;
    GrownClosed(f, a);
    GrownClosed(Grown(f, a), b);
  }

  lemma UnitedRepresents<T(!new)>(f: Shape<T>, pairs: seq<(T, T)>, a: T, b: T, x: T, y: T)
    requires Represents(f, pairs) && Closed(f)
    requires (x in f.root || x == a || x == b) && (y in f.root || y == a || y == b)
    ensures var g := Grown(Grown(f, a), b); g.root[a] in g.rank && g.root[b] in g.rank
    ensures var g := Grown(Grown(f, a), b);
      SameTree(United(g, g.root[a], g.root[b]), x, y) <==> Connected(pairs + [(a, b)], x, y)
  {
    hide Grown, United, Connected, Represents, Closed;
    EndsRooted(f, a, b);
    GrownRepresents(f, pairs, a, b, x, y);
    GrownRepresents(f, pairs, a, b, x, a);
    GrownRepresents(f, pairs, a, b, x, b);
    GrownRepresents(f, pairs, a, b, a, y);
    GrownRepresents(f, pairs, a, b, b, y);
    OnePairMore(pairs, a, b, x, y);
  }

  lemma GrownRepresents<T(!new)>(f: Shape<T>, pairs: seq<(T, T)>, a: T, b: T, x: T, y: T)
    requires Represents(f, pairs) && Closed(f)
    requires (x in f.root || x == a || x == b) && (y in f.root || y == a || y == b)
    ensures Grown(Grown(f, a), b).root[x] == Grown(Grown(f, a), b).root[y] <==> Connected(pairs, x, y)
  {
    hide Grown, Connected;
    if x !in f.root {
      Alone(pairs, x, y);
    } else if y !in f.root {
      Alone(pairs, y, x);
      Symmetric(pairs, x, y);
      Symmetric(pairs, y, x);
    } else {
      assert SameTree(f, x, y) <==> Connected(pairs, x, y);
    }
  }

  /** A forest's shape is closed. */
  lemma ForestClosed<T(!new)>(parent: map<T, T>, f: Shape<T>)
    requires Forest(parent, f)
    ensures Closed(f)
  {
    forall x | x in f.root ensures f.root[x] in f.root {
      assert Placed(parent, f, x);
    }
  }

  /** Linking the two roots in the parent links does what uniting the shape does. */
  lemma PairJoined<T(!new)>(parent: map<T, T>, f: Shape<T>, g: Shape<T>, pairs: seq<(T, T)>, a: T, b: T)
    requires Represents(f, pairs) && Closed(f) && g == Grown(Grown(f, a), b) && Forest(parent, g)
    ensures g.root[a] in g.rank && g.root[b] in g.rank
    ensures var h := United(g, g.root[a], g.root[b]);
      Forest(parent[g.root[a] := g.root[b]], h) && Represents(h, pairs + [(a, b)])
  {
    hide Connected, Placed, United, Represents, Grown, Closed;
    RootsAreFixed(parent, g, a);
    RootsAreFixed(parent, g, b);
    UnitedForest(parent, g, g.root[a], g.root[b]);
    PairRepresented(f, pairs, a, b);
  }
}
