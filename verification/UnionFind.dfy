/** Union-find over draft keys with path compression, against the plain map from key to root. */
module UnionFind {
  type Key = string

  datatype Edge = Edge(from: Key, to: Key)

  ghost predicate Endpoints(keys: set<Key>, edges: seq<Edge>) {
    forall i :: 0 <= i < |edges| ==> edges[i].from in keys && edges[i].to in keys
  }

  /** Welding two classes: everything under the first root moves under the second. */
  function Weld(roots: map<Key, Key>, e: Edge): (r: map<Key, Key>)
    requires e.from in roots && e.to in roots
    ensures r.Keys == roots.Keys
  {
    map k | k in roots :: if roots[k] == roots[e.from] then roots[e.to] else roots[k]
  }

  /** The root of every key once the edges have been welded in order. */
  function Roots(keys: set<Key>, edges: seq<Edge>): (r: map<Key, Key>)
    requires Endpoints(keys, edges)
    ensures r.Keys == keys
  {
    if edges == [] then map k | k in keys :: k
    else Weld(Roots(keys, edges[..|edges| - 1]), edges[|edges| - 1])
  }

  /** Both endpoints of every edge share a root. */
  lemma {:induction false} EdgesShareRoots(keys: set<Key>, edges: seq<Edge>)
    requires Endpoints(keys, edges)
    ensures forall i :: 0 <= i < |edges| ==> Roots(keys, edges)[edges[i].from] == Roots(keys, edges)[edges[i].to]
  {
    if edges != [] {
      EdgesShareRoots(keys, edges[..|edges| - 1]);
    }
  }

  /** Some edge joins the two, either way round. */
  ghost predicate Step(edges: seq<Edge>, a: Key, b: Key) {
    Edge(a, b) in edges || Edge(b, a) in edges
  }

  ghost predicate Chain(edges: seq<Edge>, path: seq<Key>) {
    path != [] && forall i :: 0 <= i < |path| - 1 ==> Step(edges, path[i], path[i + 1])
  }

  /** A chain of edges leads from one to the other. */
  ghost predicate Joined(edges: seq<Edge>, a: Key, b: Key) {
    exists path :: Chain(edges, path) && path[0] == a && path[|path| - 1] == b
  }

  lemma JoinedThrough(edges: seq<Edge>, a: Key, b: Key, c: Key, d: Key)
    requires Joined(edges, a, b) && Step(edges, b, c) && Joined(edges, c, d)
    ensures Joined(edges, a, d)
  {
    var p :| Chain(edges, p) && p[0] == a && p[|p| - 1] == b;
    var q :| Chain(edges, q) && q[0] == c && q[|q| - 1] == d;
    assert Chain(edges, p + q);
    assert (p + q)[|p| + |q| - 1] == d;
  }

  lemma JoinedByMore(edges: seq<Edge>, e: Edge, a: Key, b: Key)
    requires Joined(edges, a, b)
    ensures Joined(edges + [e], a, b)
  {
    var p :| Chain(edges, p) && p[0] == a && p[|p| - 1] == b;
    forall i | 0 <= i < |p| - 1 ensures Step(edges + [e], p[i], p[i + 1]) { assert Step(edges, p[i], p[i + 1]); }
    assert Chain(edges + [e], p);
  }

  /** The classes are the connected parts: two keys share a root exactly when a chain of edges joins them. */
  lemma {:induction false} SameRootIffJoined(keys: set<Key>, edges: seq<Edge>, a: Key, b: Key)
    requires Endpoints(keys, edges) && a in keys && b in keys
    ensures Roots(keys, edges)[a] == Roots(keys, edges)[b] <==> Joined(edges, a, b)
  {
    if Roots(keys, edges)[a] == Roots(keys, edges)[b] { SameRootJoins(keys, edges, a, b); }
    if Joined(edges, a, b) {
      var p :| Chain(edges, p) && p[0] == a && p[|p| - 1] == b;
      ChainSharesRoot(keys, edges, p);
    }
  }

  lemma {:induction false} ChainSharesRoot(keys: set<Key>, edges: seq<Edge>, path: seq<Key>)
    requires Endpoints(keys, edges) && Chain(edges, path) && path[0] in keys
    ensures path[|path| - 1] in keys && Roots(keys, edges)[path[0]] == Roots(keys, edges)[path[|path| - 1]]
    decreases |path|
  {
    if |path| > 1 {
      EdgesShareRoots(keys, edges);
      assert Step(edges, path[0], path[1]);
      hide Roots;
      forall i | 0 <= i < |path| - 2 ensures Step(edges, path[1..][i], path[1..][i + 1]) {
        assert Step(edges, path[i + 1], path[i + 2]);
      }
      ChainSharesRoot(keys, edges, path[1..]);
    }
  }

  lemma {:induction false} SameRootJoins(keys: set<Key>, edges: seq<Edge>, a: Key, b: Key)
    requires Endpoints(keys, edges) && a in keys && b in keys
    requires Roots(keys, edges)[a] == Roots(keys, edges)[b]
    ensures Joined(edges, a, b)
    decreases |edges|, 0
  {
    if edges == [] {
      assert Chain(edges, [a]) && [a][0] == a == b;
    } else {
      var (before, e) := (edges[..|edges| - 1], edges[|edges| - 1]);
      assert edges == before + [e];
      var roots := Roots(keys, before);
      assert Step(edges, e.from, e.to) && Step(edges, e.to, e.from);
      if roots[a] == roots[b] {
        JoinsBefore(keys, before, e, a, b);
      } else if roots[a] == roots[e.from] {
        JoinsBefore(keys, before, e, a, e.from);
        JoinsBefore(keys, before, e, e.to, b);
        JoinedThrough(edges, a, e.from, e.to, b);
      } else {
        JoinsBefore(keys, before, e, a, e.to);
        JoinsBefore(keys, before, e, e.from, b);
        JoinedThrough(edges, a, e.to, e.from, b);
      }
    }
  }

  lemma {:induction false} JoinsBefore(keys: set<Key>, before: seq<Edge>, e: Edge, a: Key, b: Key)
    requires Endpoints(keys, before) && a in keys && b in keys && Roots(keys, before)[a] == Roots(keys, before)[b]
    ensures Joined(before + [e], a, b)
    decreases |before|, 1
  {
    SameRootJoins(keys, before, a, b);
    JoinedByMore(before, e, a, b);
  }

  ghost function Class(roots: map<Key, Key>, root: Key): set<Key> {
    set k | k in roots && roots[k] == root
  }

  /** How many edges lie in the class of `root`. */
  ghost function EdgesIn(roots: map<Key, Key>, edges: seq<Edge>, root: Key): nat
    requires Endpoints(roots.Keys, edges)
  {
    if edges == [] then 0
    else EdgesIn(roots, edges[..|edges| - 1], root) + (if roots[edges[|edges| - 1].from] == root then 1 else 0)
  }

  /** Welding merges the edge counts of the two classes. */
  lemma {:induction false} WeldMergesEdges(roots: map<Key, Key>, e: Edge, edges: seq<Edge>, root: Key)
    requires Endpoints(roots.Keys, edges) && e.from in roots && e.to in roots
    ensures var a, b := roots[e.from], roots[e.to];
      EdgesIn(Weld(roots, e), edges, root) ==
        if root == b then (if a == b then EdgesIn(roots, edges, b)
          else EdgesIn(roots, edges, a) + EdgesIn(roots, edges, b))
        else if root == a then 0 else EdgesIn(roots, edges, root)
  {
    if edges != [] { WeldMergesEdges(roots, e, edges[..|edges| - 1], root); }
  }

  /** Welding joins the two classes and leaves the others alone. */
  lemma WeldJoinsClasses(roots: map<Key, Key>, e: Edge, root: Key)
    requires e.from in roots && e.to in roots
    ensures var a, b := roots[e.from], roots[e.to];
      Class(Weld(roots, e), root) ==
        if root == b then Class(roots, a) + Class(roots, b)
        else if root == a then {} else Class(roots, root)
  {
    var a, b := roots[e.from], roots[e.to];
    var after := Weld(roots, e);
    assert forall k :: k in roots ==> after[k] == if roots[k] == a then b else roots[k];
  }

  /** A class with k edges has at most k + 1 members. */
  lemma {:induction false} ClassSize(keys: set<Key>, edges: seq<Edge>, root: Key)
    requires Endpoints(keys, edges)
    ensures |Class(Roots(keys, edges), root)| <= EdgesIn(Roots(keys, edges), edges, root) + 1
  {
    if edges == [] {
      assert Class(Roots(keys, edges), root) <= {root};
      SubsetSize(Class(Roots(keys, edges), root), {root});
    } else {
      var n := |edges| - 1;
      var before, e := Roots(keys, edges[..n]), edges[n];
      var a, b := before[e.from], before[e.to];
      ClassSize(keys, edges[..n], root);
      ClassSize(keys, edges[..n], a);
      WeldMergesEdges(before, e, edges[..n], root);
      WeldJoinsClasses(before, e, root);
      assert Roots(keys, edges) == Weld(before, e);
      assert Weld(before, e)[e.from] == b;
      assert EdgesIn(Weld(before, e), edges, root)
        == EdgesIn(Weld(before, e), edges[..n], root) + (if b == root then 1 else 0);
      hide Class, Weld, EdgesIn, Roots;
      UnionSize(Class(before, a), Class(before, b));
      assert a == b ==> Class(before, a) + Class(before, b) == Class(before, b);
    }
  }

  lemma UnionSize<T>(a: set<T>, b: set<T>)
    ensures |a + b| <= |a| + |b|
  {
    assert a + b == a + (b - a);
    SubsetSize(b - a, b);
  }

  lemma SubsetSize<T>(a: set<T>, b: set<T>)
    requires a <= b
    ensures |a| <= |b|
  {
    assert b == a + (b - a);
  }

  // ----- the parent map

  /** Key k's link stays in its class, points at itself exactly at the root, and otherwise goes up. */
  ghost predicate Linked(parent: map<Key, Key>, roots: map<Key, Key>, depth: map<Key, nat>, k: Key)
    requires parent.Keys == roots.Keys == depth.Keys && k in parent
  {
    && parent[k] in parent && roots[k] in parent
    && roots[parent[k]] == roots[k]
    && (parent[k] == k <==> roots[k] == k)
    && (parent[k] != k ==> depth[parent[k]] < depth[k])
  }

  /** `parent` is a forest whose trees are the classes of `roots`; `depth` falls along every link, so
      links cannot form a cycle. */
  ghost predicate Forest(parent: map<Key, Key>, roots: map<Key, Key>, depth: map<Key, nat>) {
    && parent.Keys == roots.Keys == depth.Keys
    && forall k {:trigger Linked(parent, roots, depth, k)} :: k in parent ==> Linked(parent, roots, depth, k)
  }

  /** Follows links to the root, then points every key on the way straight at it. */
  method Find(parent: map<Key, Key>, k: Key, ghost roots: map<Key, Key>, ghost depth: map<Key, nat>)
    returns (root: Key, compressed: map<Key, Key>)
    requires Forest(parent, roots, depth) && k in parent
    ensures root == roots[k] && Forest(compressed, roots, depth)
    ensures root in parent && roots[root] == root
  {
    var cur := k;
    assert Linked(parent, roots, depth, k);
    while parent[cur] != cur
      invariant cur in parent && roots[cur] == roots[k] && Linked(parent, roots, depth, cur)
      decreases depth[cur]
    {
      cur := parent[cur];
      assert Linked(parent, roots, depth, cur);
    }
    root, compressed := cur, parent;
    var walk := k;
    while walk != root
      invariant Forest(compressed, roots, depth) && walk in compressed && roots[walk] == root
      invariant roots[root] == root && root in compressed
      decreases depth[walk]
    {
      var next := compressed[walk];
      assert Linked(compressed, roots, depth, walk);
      CompressKeepsForest(compressed, roots, depth, walk);
      compressed := compressed[walk := root];
      walk := next;
    }
  }

  lemma {:induction false} RootIsShallower(parent: map<Key, Key>, roots: map<Key, Key>, depth: map<Key, nat>, k: Key)
    requires Forest(parent, roots, depth) && k in parent && roots[k] != k
    ensures roots[k] in parent && depth[roots[k]] < depth[k] && roots[roots[k]] == roots[k]
    decreases depth[k]
  {
    assert Linked(parent, roots, depth, k);
    if roots[parent[k]] != parent[k] { RootIsShallower(parent, roots, depth, parent[k]); }
  }

  lemma CompressKeepsForest(parent: map<Key, Key>, roots: map<Key, Key>, depth: map<Key, nat>, k: Key)
    requires Forest(parent, roots, depth) && k in parent && roots[k] != k
    ensures Forest(parent[k := roots[k]], roots, depth)
  {
    RootIsShallower(parent, roots, depth, k);
    forall j | j in parent
      ensures Linked(parent[k := roots[k]], roots, depth, j)
    {
      assert Linked(parent, roots, depth, j);
    }
  }

  lemma {:induction false} SingletonForest(keys: set<Key>)
    ensures Forest(map k | k in keys :: k, Roots(keys, []), map k | k in keys :: 0)
  {
  }

  lemma {:induction false} RootsStep(keys: set<Key>, edges: seq<Edge>, i: nat)
    requires Endpoints(keys, edges) && i < |edges|
    ensures Endpoints(keys, edges[..i]) && Endpoints(keys, edges[..i + 1])
    ensures Roots(keys, edges[..i + 1]) == Weld(Roots(keys, edges[..i]), edges[i])
  {
    assert edges[..i + 1][..i] == edges[..i];
  }

  /** Joins the trees of an edge's endpoints. */
  method Union(parent: map<Key, Key>, e: Edge, ghost roots: map<Key, Key>, ghost depth: map<Key, nat>)
    returns (joined: map<Key, Key>, ghost deeper: map<Key, nat>)
    requires Forest(parent, roots, depth) && e.from in parent && e.to in parent
    ensures Forest(joined, Weld(roots, e), deeper)
  {
    hide Linked, Sunk;
    var a, compressed := Find(parent, e.from, roots, depth);
    var b, compressed' := Find(compressed, e.to, roots, depth);
    joined, deeper := compressed', depth;
    if a != b {
      WeldKeepsForest(joined, roots, depth, e);
      joined, deeper := joined[a := b], Sunk(roots, depth, a, b);
    } else {
      assert Weld(roots, e) == roots;
    }
  }

  /** Welds every edge; the forest that remains stands for the plain roots. */
  method WeldAll(keys: set<Key>, edges: seq<Edge>) returns (parent: map<Key, Key>, ghost depth: map<Key, nat>)
    requires Endpoints(keys, edges)
    ensures Forest(parent, Roots(keys, edges), depth)
  {
    parent, depth := map k | k in keys :: k, map k | k in keys :: 0;
    SingletonForest(keys);
    assert edges[..0] == [];
    hide Linked, Weld, Roots;
    for i := 0 to |edges|
      invariant Endpoints(keys, edges[..i]) && Forest(parent, Roots(keys, edges[..i]), depth)
    {
      RootsStep(keys, edges, i);
      parent, depth := Union(parent, edges[i], Roots(keys, edges[..i]), depth);
    }
    assert edges[..|edges|] == edges;
  }

  /** Depths once the tree of `a` hangs below `b`. */
  ghost function Sunk(roots: map<Key, Key>, depth: map<Key, nat>, a: Key, b: Key): (r: map<Key, nat>)
    requires roots.Keys == depth.Keys && b in depth
    ensures r.Keys == depth.Keys
  {
    map k | k in depth :: if roots[k] == a then depth[k] + depth[b] + 1 else depth[k]
  }

  /** One link after the tree of `a` hangs below `b`. */
  lemma WeldLink(parent: map<Key, Key>, roots: map<Key, Key>, depth: map<Key, nat>, e: Edge, k: Key)
    requires parent.Keys == roots.Keys == depth.Keys && k in parent && e.from in roots && e.to in roots
    requires roots[e.from] != roots[e.to] && roots[e.from] in parent && roots[e.to] in parent
    requires roots[roots[e.from]] == roots[e.from] && roots[roots[e.to]] == roots[e.to]
    requires Linked(parent, roots, depth, k)
    ensures Linked(parent[roots[e.from] := roots[e.to]], Weld(roots, e),
      Sunk(roots, depth, roots[e.from], roots[e.to]), k)
  {
  }

  /** Hanging one root under another keeps the forest. */
  lemma WeldKeepsForest(parent: map<Key, Key>, roots: map<Key, Key>, depth: map<Key, nat>, e: Edge)
    requires Forest(parent, roots, depth) && e.from in roots && e.to in roots
    requires roots[e.from] != roots[e.to] && roots[e.from] in parent && roots[e.to] in parent
    requires roots[roots[e.from]] == roots[e.from] && roots[roots[e.to]] == roots[e.to]
    ensures Forest(parent[roots[e.from] := roots[e.to]], Weld(roots, e), Sunk(roots, depth, roots[e.from], roots[e.to]))
  {
    hide Weld, Sunk, Linked;
    forall k | k in parent
      ensures Linked(parent[roots[e.from] := roots[e.to]], Weld(roots, e),
        Sunk(roots, depth, roots[e.from], roots[e.to]), k)
    {
      assert Linked(parent, roots, depth, k);
      WeldLink(parent, roots, depth, e, k);
    }
  }
}
