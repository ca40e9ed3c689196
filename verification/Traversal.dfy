/** `traverse`: bounded breadth-first search over one snapshot. */
module Traversal {
  import opened Common
  import opened PlainGraphs
  import opened Indexes
  import opened Snapshots

  datatype Direction = Out | In | Both

  /** What a traversal may follow. No kinds means every kind. */
  datatype Spec = Spec(
    direction: Direction,
    kinds: set<nat>,
    maxDepth: nat,
    maxNodes: nat,
    maxVisibility: nat,
    visible: Memory -> bool)
  {
    predicate Follows(r: Relationship) {
      (kinds == {} || r.kind in kinds) && r.visibility <= maxVisibility
    }

    /** A depth bound of 0 still emits one hop. */
    function Radius(): nat { if maxDepth == 0 then 1 else maxDepth }
  }

  // ----- reference: reachability in the plain graph

  ghost predicate LinkAllows(link: Link, spec: Spec, a: MemoryId, b: MemoryId) {
    && spec.Follows(link.weight)
    && (|| (!spec.direction.In? && link.from == a && link.to == b)
        || (!spec.direction.Out? && link.to == a && link.from == b))
  }

  /** One allowed hop from `a` to a visible memory `b`. */
  ghost predicate Hop(g: Graph, spec: Spec, a: MemoryId, b: MemoryId) {
    && b in g.memories && spec.visible(g.memories[b])
    && exists r :: r in g.links && LinkAllows(g.links[r], spec, a, b)
  }

  /** Memories within `k` hops of `start`. */
  ghost function Within(g: Graph, spec: Spec, start: MemoryId, k: nat): set<MemoryId> {
    if k == 0 then {start}
    else
      var near := Within(g, spec, start, k - 1);
      near + set b | b in g.memories && exists a :: a in near && Hop(g, spec, a, b)
  }

  ghost predicate IsPath(g: Graph, spec: Spec, path: seq<MemoryId>) {
    path != [] && forall i :: 0 <= i < |path| - 1 ==> Hop(g, spec, path[i], path[i + 1])
  }

  ghost predicate Connects(g: Graph, spec: Spec, path: seq<MemoryId>, a: MemoryId, b: MemoryId) {
    IsPath(g, spec, path) && path[0] == a && path[|path| - 1] == b
  }

  lemma {:induction false} WithinGrows(g: Graph, spec: Spec, start: MemoryId, j: nat, k: nat)
    requires j <= k
    ensures Within(g, spec, start, j) <= Within(g, spec, start, k)
  {
    if j < k { WithinGrows(g, spec, start, j, k - 1); }
  }

  /** Being within `k` hops is having a path of at most `k` hops. */
  lemma {:induction false} WithinIsPaths(g: Graph, spec: Spec, start: MemoryId, k: nat, v: MemoryId)
    ensures v in Within(g, spec, start, k) <==>
      exists path :: Connects(g, spec, path, start, v) && |path| <= k + 1
  {
    if v in Within(g, spec, start, k) {
      var path := PathTo(g, spec, start, k, v);
    }
    forall path | Connects(g, spec, path, start, v) && |path| <= k + 1
      ensures v in Within(g, spec, start, k)
    {
      PathStaysWithin(g, spec, path, start, v);
      WithinGrows(g, spec, start, |path| - 1, k);
    }
  }

  lemma {:induction false} PathTo(g: Graph, spec: Spec, start: MemoryId, k: nat, v: MemoryId)
      returns (path: seq<MemoryId>)
    requires v in Within(g, spec, start, k)
    ensures Connects(g, spec, path, start, v) && |path| <= k + 1
  {
    if k == 0 {
      path := [start];
    } else if v in Within(g, spec, start, k - 1) {
      path := PathTo(g, spec, start, k - 1, v);
    } else {
      var a :| a in Within(g, spec, start, k - 1) && Hop(g, spec, a, v);
      var before := PathTo(g, spec, start, k - 1, a);
      path := before + [v];
      ExtendPath(g, spec, before, start, a, v);
    }
  }

  /** The link leads from `a` to a visible `b` in a direction asked for, is of a kind asked for and no more private than
      asked for. */
  ghost predicate Crosses(g: Graph, spec: Spec, a: MemoryId, b: MemoryId, r: RelationshipId) {
    && b in g.memories && spec.visible(g.memories[b])
    && r in g.links
    && var l := g.links[r];
    && (spec.kinds != {} ==> l.weight.kind in spec.kinds) && l.weight.visibility <= spec.maxVisibility
    && match spec.direction
       case Out => l.from == a && l.to == b
       case In => l.from == b && l.to == a
       case Both => (l.from == a && l.to == b) || (l.from == b && l.to == a)
  }

  ghost predicate Route(g: Graph, spec: Spec, path: seq<MemoryId>, links: seq<RelationshipId>) {
    |path| == |links| + 1 && forall i :: 0 <= i < |links| ==> Crosses(g, spec, path[i], path[i + 1], links[i])
  }

  lemma HopCrosses(g: Graph, spec: Spec, a: MemoryId, b: MemoryId)
    ensures Hop(g, spec, a, b) <==> exists r :: Crosses(g, spec, a, b, r)
  {
    forall r ensures Crosses(g, spec, a, b, r) <==>
      b in g.memories && spec.visible(g.memories[b]) && r in g.links && LinkAllows(g.links[r], spec, a, b) {}
  }

  /** Being within `k` hops is having a route of at most `k` links. */
  lemma {:induction false} WithinIsRoutes(g: Graph, spec: Spec, start: MemoryId, k: nat, v: MemoryId)
    ensures v in Within(g, spec, start, k) <==>
      exists path, links :: Route(g, spec, path, links) && path[0] == start && path[|links|] == v && |links| <= k
  {
    WithinIsPaths(g, spec, start, k, v);
    if v in Within(g, spec, start, k) {
      var path :| Connects(g, spec, path, start, v) && |path| <= k + 1;
      var links := RouteOf(g, spec, path);
      assert Route(g, spec, path, links) && path[0] == start && path[|links|] == v;
    }
    forall path, links | Route(g, spec, path, links) && path[0] == start && path[|links|] == v && |links| <= k
      ensures v in Within(g, spec, start, k)
    {
      forall i | 0 <= i < |path| - 1 ensures Hop(g, spec, path[i], path[i + 1]) {
        assert Crosses(g, spec, path[i], path[i + 1], links[i]);
        HopCrosses(g, spec, path[i], path[i + 1]);
      }
      assert Connects(g, spec, path, start, v);
    }
  }

  lemma {:induction false} RouteOf(g: Graph, spec: Spec, path: seq<MemoryId>) returns (links: seq<RelationshipId>)
    requires IsPath(g, spec, path)
    ensures Route(g, spec, path, links)
    decreases |path|
  {
    links := [];
    if |path| > 1 {
      var n := |path| - 2;
      assert Hop(g, spec, path[n], path[n + 1]);
      HopCrosses(g, spec, path[n], path[n + 1]);
      hide Hop, Crosses;
      var before := RouteOf(g, spec, path[..n + 1]);
      var r :| Crosses(g, spec, path[n], path[n + 1], r);
      links := before + [r];
      forall i | 0 <= i < |links| ensures Crosses(g, spec, path[i], path[i + 1], links[i]) {
        if i < n { assert Crosses(g, spec, path[..n + 1][i], path[..n + 1][i + 1], before[i]); }
      }
    }
  }

  lemma ExtendPath(g: Graph, spec: Spec, path: seq<MemoryId>, start: MemoryId, a: MemoryId, b: MemoryId)
    requires Connects(g, spec, path, start, a) && Hop(g, spec, a, b)
    ensures Connects(g, spec, path + [b], start, b)
  {
    hide Hop;
    forall i | 0 <= i < |path|
      ensures Hop(g, spec, (path + [b])[i], (path + [b])[i + 1])
    {
      if i < |path| - 1 { assert Hop(g, spec, path[i], path[i + 1]); }
    }
  }

  lemma {:induction false} PathStaysWithin(g: Graph, spec: Spec, path: seq<MemoryId>, start: MemoryId, v: MemoryId)
    requires Connects(g, spec, path, start, v)
    ensures v in Within(g, spec, start, |path| - 1)
    decreases |path|
  {
    if |path| > 1 {
      var before := path[..|path| - 1];
      assert Hop(g, spec, path[|path| - 2], path[|path| - 1]);
      PathStaysWithin(g, spec, before, start, before[|before| - 1]);
    }
  }

  // ----- the search

  /** What the search has emitted, still has queued with depths, and has met. */
  datatype Progress = Progress(out: seq<nat>, queue: seq<(nat, nat)>, seen: set<nat>)

  /** The other end of an edge, if the traversal may take it from `n`. */
  function Across(edge: Option<Edge>, spec: Spec, n: nat, outgoing: bool): Option<nat> {
    if edge.None? || !spec.Follows(edge.value.weight) then None
    else if outgoing then (if edge.value.source == n then Some(edge.value.target) else None)
    else if edge.value.target == n then Some(edge.value.source) else None
  }

  ghost predicate Step(nodes: Nodes, edges: Edges, spec: Spec, a: nat, b: nat) {
    && Live(nodes, b) && spec.visible(nodes[b].value)
    && exists e :: 0 <= e < |edges| &&
         ((!spec.direction.In? && Across(edges[e], spec, a, true) == Some(b)) ||
          (!spec.direction.Out? && Across(edges[e], spec, a, false) == Some(b)))
  }

  ghost predicate Ascending(out: seq<nat>, depth: map<nat, nat>) {
    && (forall v :: v in out ==> v in depth)
    && forall i, j :: 0 <= i < j < |out| ==> depth[out[i]] <= depth[out[j]]
  }

  /** The breadth-first invariant at depth `d`; `depth` records when each node was met. */
  ghost predicate Frontier(g: Graph, nodes: Nodes, spec: Spec, start: nat, p: Progress, depth: map<nat, nat>, d: nat) {
    && Live(nodes, start) && Distinct(p.out) && start !in p.out
    && p.seen == {start} + (set v | v in p.out)
    && depth.Keys == p.seen && depth[start] == 0
    && (forall v :: v in p.seen ==>
      depth[v] <= d + 1 && depth[v] <= spec.Radius() && Sound(g, nodes, spec, start, v, depth[v]))
    && (forall v :: v in p.out ==> depth[v] >= 1)
    && Ascending(p.out, depth)
    && (forall i :: 0 <= i < |p.queue| ==>
          && p.queue[i].0 in p.seen && depth[p.queue[i].0] == p.queue[i].1
          && d <= p.queue[i].1 < spec.Radius())
    && (forall i, j :: 0 <= i < j < |p.queue| ==> p.queue[i].1 <= p.queue[j].1)
  }

  /** A met node is live, visible, and within the hops recorded for it. */
  ghost predicate Sound(g: Graph, nodes: Nodes, spec: Spec, start: nat, v: nat, k: nat) {
    && Live(nodes, start) && Live(nodes, v) && spec.visible(nodes[v].value)
    && nodes[v].value.id in Within(g, spec, nodes[start].value.id, k)
  }

  ghost predicate Queued(p: Progress, v: nat) {
    exists i :: 0 <= i < |p.queue| && p.queue[i].0 == v
  }

  /** Every node met below the radius is expanded, being expanded, or queued. */
  ghost predicate Accounted(spec: Spec, p: Progress, depth: map<nat, nat>, expanded: set<nat>)
    requires depth.Keys == p.seen
  {
    forall v :: v in p.seen && depth[v] < spec.Radius() ==> v in expanded || Queued(p, v)
  }

  /** All successors of the expanded nodes have been met, at most one level deeper. */
  ghost predicate Expanded(nodes: Nodes, edges: Edges, spec: Spec, p: Progress, depth: map<nat, nat>,
      expanded: set<nat>)
    requires depth.Keys == p.seen
  {
    forall v, w {:trigger Step(nodes, edges, spec, v, w)} ::
      v in expanded && v in p.seen && Step(nodes, edges, spec, v, w) ==> w in p.seen && depth[w] <= depth[v] + 1
  }

  /** Meets a new node at depth `d + 1`. */
  function Meet(spec: Spec, p: Progress, v: nat, d: nat): Progress {
    Progress(
      p.out + [v],
      if d + 1 < spec.maxDepth then p.queue + [(v, d + 1)] else p.queue,
      p.seen + {v})
  }

  lemma MeetAscends(out: seq<nat>, depth: map<nat, nat>, v: nat, k: nat)
    requires Ascending(out, depth) && v !in depth && forall w :: w in depth ==> depth[w] <= k
    ensures Ascending(out + [v], depth[v := k])
  {
  }

  lemma MeetKeepsFrontier(g: Graph, nodes: Nodes, spec: Spec, start: nat, p: Progress, depth: map<nat, nat>, d: nat,
      v: nat)
    requires Frontier(g, nodes, spec, start, p, depth, d) && d < spec.Radius() && v !in p.seen
    requires Sound(g, nodes, spec, start, v, d + 1)
    ensures Frontier(g, nodes, spec, start, Meet(spec, p, v, d), depth[v := d + 1], d)
  {
    hide Sound, Live, Ascending;
    MeetAscends(p.out, depth, v, d + 1);
    var (q, deep) := (Meet(spec, p, v, d), depth[v := d + 1]);
    assert q.seen == {start} + (set w | w in q.out);
    forall i, j | 0 <= i < j < |q.out| ensures q.out[i] != q.out[j] {
      assert q.out[i] in p.out;
    }
  }

  lemma MeetKeepsAccounts(spec: Spec, p: Progress, depth: map<nat, nat>, d: nat, v: nat, expanded: set<nat>)
    requires depth.Keys == p.seen && v !in p.seen && Accounted(spec, p, depth, expanded)
    ensures Accounted(spec, Meet(spec, p, v, d), depth[v := d + 1], expanded)
  {
    var q, deep := Meet(spec, p, v, d), depth[v := d + 1];
    forall w | w in q.seen && deep[w] < spec.Radius()
      ensures w in expanded || Queued(q, w)
    {
      if w == v {
        assert q.queue[|p.queue|].0 == w;
      } else if w !in expanded {
        var i :| 0 <= i < |p.queue| && p.queue[i].0 == w;
        assert q.queue[i].0 == w;
      }
    }
  }

  /** The vectors are those of a snapshot that stands for `g`. */
  ghost predicate Mirrors(g: Graph, nodes: Nodes, edges: Edges, byId: map<MemoryId, nat>,
      byRelId: map<RelationshipId, nat>) {
    && NodesAgree(nodes, byId) && EdgesAgree(nodes, edges, byRelId)
    && g.memories == MemoriesOf(nodes, byId) && g.links == LinksOf(nodes, edges, byRelId)
  }

  /** Edge steps between nodes are exactly the hops between their memories. */
  lemma StepIsHop(g: Graph, nodes: Nodes, edges: Edges, byId: map<MemoryId, nat>, byRelId: map<RelationshipId, nat>,
                  spec: Spec, a: nat, b: nat)
    requires Mirrors(g, nodes, edges, byId, byRelId) && Live(nodes, a) && Live(nodes, b)
    ensures Step(nodes, edges, spec, a, b) <==> Hop(g, spec, nodes[a].value.id, nodes[b].value.id)
  {
    var ida, idb := nodes[a].value.id, nodes[b].value.id;
    forall e | 0 <= e < |edges| && edges[e].Some?
      ensures edges[e].value.weight.id in g.links
      ensures LinkAllows(g.links[edges[e].value.weight.id], spec, ida, idb) <==>
        ((!spec.direction.In? && Across(edges[e], spec, a, true) == Some(b)) ||
         (!spec.direction.Out? && Across(edges[e], spec, a, false) == Some(b)))
    {
      LinkMirrors(g, nodes, edges, byId, byRelId, e, a);
      LinkMirrors(g, nodes, edges, byId, byRelId, e, b);
    }
    if Hop(g, spec, ida, idb) {
      var r :| r in g.links && LinkAllows(g.links[r], spec, ida, idb);
      assert edges[byRelId[r]].value.weight.id == r;
    }
  }

  lemma LinkMirrors(g: Graph, nodes: Nodes, edges: Edges, byId: map<MemoryId, nat>, byRelId: map<RelationshipId, nat>,
      e: nat, v: nat)
    requires Mirrors(g, nodes, edges, byId, byRelId) && e < |edges| && edges[e].Some? && Live(nodes, v)
    ensures edges[e].value.weight.id in g.links && g.links[edges[e].value.weight.id].weight == edges[e].value.weight
    ensures g.links[edges[e].value.weight.id].from == nodes[v].value.id <==> edges[e].value.source == v
    ensures g.links[edges[e].value.weight.id].to == nodes[v].value.id <==> edges[e].value.target == v
  {
    IdIsNode(nodes, byId, nodes[v].value.id, edges[e].value.source);
    IdIsNode(nodes, byId, nodes[v].value.id, edges[e].value.target);
  }

  lemma StepIsSound(g: Graph, nodes: Nodes, edges: Edges, byId: map<MemoryId, nat>, byRelId: map<RelationshipId, nat>,
                    spec: Spec, start: nat, n: nat, d: nat, v: nat)
    requires Mirrors(g, nodes, edges, byId, byRelId) && Sound(g, nodes, spec, start, n, d)
      && Step(nodes, edges, spec, n, v)
    ensures Sound(g, nodes, spec, start, v, d + 1)
  {
    StepIsHop(g, nodes, edges, byId, byRelId, spec, n, v);
  }

  lemma FrontierDepths(g: Graph, nodes: Nodes, spec: Spec, start: nat, p: Progress, depth: map<nat, nat>, d: nat)
    requires Frontier(g, nodes, spec, start, p, depth, d)
    ensures depth.Keys == p.seen && forall v :: v in p.seen ==>
      depth[v] <= d + 1 && Sound(g, nodes, spec, start, v, depth[v])
  {
  }

  /** Visits the neighbours of `n` along its outgoing or its incoming edges, in any order. */
  method VisitEdges(nodes: Nodes, edges: Edges, spec: Spec, start: nat, n: nat, d: nat, outgoing: bool, p0: Progress,
                    ghost g: Graph, ghost byId: map<MemoryId, nat>, ghost byRelId: map<RelationshipId, nat>,
                    ghost depth0: map<nat, nat>, ghost expanded: set<nat>)
    returns (p: Progress, ghost depth: map<nat, nat>)
    requires Mirrors(g, nodes, edges, byId, byRelId)
    requires Frontier(g, nodes, spec, start, p0, depth0, d) && d < spec.Radius() && n in p0.seen && depth0[n] == d
    requires Accounted(spec, p0, depth0, expanded)
    requires if outgoing then !spec.direction.In? else !spec.direction.Out?
    ensures Frontier(g, nodes, spec, start, p, depth, d) && Accounted(spec, p, depth, expanded)
    ensures p0.seen <= p.seen && (p.seen == p0.seen ==> p == p0) && forall v :: v in p0.seen ==> depth[v] == depth0[v]
    ensures forall e, b: nat :: 0 <= e < |edges| && Across(edges[e], spec, n, outgoing) == Some(b) ==>
      Live(nodes, b) && spec.visible(nodes[b].value) ==> b in p.seen && depth[b] <= d + 1
  {
    hide Mirrors, Sound, Step, Accounted, Frontier;
    p, depth := p0, depth0;
    FrontierDepths(g, nodes, spec, start, p, depth, d);
    var todo := set e: nat | e < |edges| && Across(edges[e], spec, n, outgoing).Some?;
    while todo != {}
      invariant Frontier(g, nodes, spec, start, p, depth, d) && depth.Keys == p.seen
      invariant Accounted(spec, p, depth, expanded)
      invariant p0.seen <= p.seen && (p.seen == p0.seen ==> p == p0) && forall v :: v in p0.seen ==>
        depth[v] == depth0[v]
      invariant forall e :: e in todo ==> 0 <= e < |edges| && Across(edges[e], spec, n, outgoing).Some?
      invariant forall e, b: nat :: 0 <= e < |edges| && e !in todo && Across(edges[e], spec, n, outgoing) == Some(b) ==>
        Live(nodes, b) && spec.visible(nodes[b].value) ==> b in p.seen && depth[b] <= d + 1
      decreases todo
    {
      var e :| e in todo;
      todo := todo - {e};
      FrontierDepths(g, nodes, spec, start, p, depth, d);
      var other := Across(edges[e], spec, n, outgoing).value;
      if other < |nodes| && nodes[other].Some? && spec.visible(nodes[other].value) && other !in p.seen {
        EdgeIsStep(nodes, edges, spec, n, other, e, outgoing);
        StepIsSound(g, nodes, edges, byId, byRelId, spec, start, n, d, other);
        MeetKeepsFrontier(g, nodes, spec, start, p, depth, d, other);
        MeetKeepsAccounts(spec, p, depth, d, other, expanded);
        p, depth := Meet(spec, p, other, d), depth[other := d + 1];
      }
    }
  }

  lemma EdgeIsStep(nodes: Nodes, edges: Edges, spec: Spec, n: nat, b: nat, e: nat, outgoing: bool)
    requires e < |edges| && Across(edges[e], spec, n, outgoing) == Some(b) && Live(nodes, b)
      && spec.visible(nodes[b].value)
    requires if outgoing then !spec.direction.In? else !spec.direction.Out?
    ensures Step(nodes, edges, spec, n, b)
  {
  }

  /** Expands one node: everything one step from it has then been met, at most one level deeper. */
  method Expand(nodes: Nodes, edges: Edges, spec: Spec, start: nat, n: nat, d: nat, p0: Progress,
                ghost g: Graph, ghost byId: map<MemoryId, nat>, ghost byRelId: map<RelationshipId, nat>,
                ghost depth0: map<nat, nat>, ghost expanded: set<nat>)
    returns (p: Progress, ghost depth: map<nat, nat>)
    requires Mirrors(g, nodes, edges, byId, byRelId)
    requires Frontier(g, nodes, spec, start, p0, depth0, d) && d < spec.Radius() && n in p0.seen && depth0[n] == d
    requires Accounted(spec, p0, depth0, expanded + {n})
    requires Expanded(nodes, edges, spec, p0, depth0, expanded) && expanded <= p0.seen
    ensures Frontier(g, nodes, spec, start, p, depth, d) && Accounted(spec, p, depth, expanded + {n})
    ensures Expanded(nodes, edges, spec, p, depth, expanded + {n})
    ensures p0.seen <= p.seen && (p.seen == p0.seen ==> p == p0)
  {
    hide Mirrors, Sound, Accounted, Distinct, Ascending;
    p, depth := p0, depth0;
    if !spec.direction.In? {
      p, depth := VisitEdges(nodes, edges, spec, start, n, d, true, p, g, byId, byRelId, depth, expanded + {n});
    }
    if !spec.direction.Out? {
      p, depth := VisitEdges(nodes, edges, spec, start, n, d, false, p, g, byId, byRelId, depth, expanded + {n});
    }
  }

  /** Every step from a node met below `limit` leads to a node met, at most one level deeper. */
  ghost predicate Closed(nodes: Nodes, edges: Edges, spec: Spec, seen: set<nat>, depth: map<nat, nat>, limit: nat)
    requires depth.Keys == seen
  {
    forall v, w {:trigger Step(nodes, edges, spec, v, w)} ::
      v in seen && depth[v] < limit && Step(nodes, edges, spec, v, w) ==> w in seen && depth[w] <= depth[v] + 1
  }

  /** Once closed, every memory within `k` hops, no more than `limit`, has been met no later than `k`. */
  lemma {:induction false} ClosedIsComplete(g: Graph, nodes: Nodes, edges: Edges, byId: map<MemoryId, nat>,
      byRelId: map<RelationshipId, nat>,
      spec: Spec, start: nat, seen: set<nat>, depth: map<nat, nat>, limit: nat, k: nat, id: MemoryId)
    requires Mirrors(g, nodes, edges, byId, byRelId) && Live(nodes, start)
    requires depth.Keys == seen && start in seen && depth[start] == 0 && Closed(nodes, edges, spec, seen, depth, limit)
    requires k <= limit && id in Within(g, spec, nodes[start].value.id, k)
    ensures id in byId && byId[id] in seen && depth[byId[id]] <= k
    decreases k
  {
    hide Step, LinksOf, EdgesAgree;
    if k == 0 {
    } else if id in Within(g, spec, nodes[start].value.id, k - 1) {
      ClosedIsComplete(g, nodes, edges, byId, byRelId, spec, start, seen, depth, limit, k - 1, id);
    } else {
      var a :| a in Within(g, spec, nodes[start].value.id, k - 1) && Hop(g, spec, a, id);
      ClosedIsComplete(g, nodes, edges, byId, byRelId, spec, start, seen, depth, limit, k - 1, a);
      hide Hop;
      StepIsHop(g, nodes, edges, byId, byRelId, spec, byId[a], byId[id]);
    }
  }

  /** What an exhausted queue proves. */
  lemma {:induction false} Finished(g: Graph, nodes: Nodes, edges: Edges, byId: map<MemoryId, nat>,
      byRelId: map<RelationshipId, nat>,
                 spec: Spec, start: nat, p: Progress, depth: map<nat, nat>, level: nat, expanded: set<nat>)
    requires Mirrors(g, nodes, edges, byId, byRelId) && Frontier(g, nodes, spec, start, p, depth, level)
      && p.queue == []
    requires Accounted(spec, p, depth, expanded) && Expanded(nodes, edges, spec, p, depth, expanded)
    ensures forall id :: id in Within(g, spec, nodes[start].value.id, spec.Radius()) && id != nodes[start].value.id ==>
      id in byId && byId[id] in p.out
  {
    forall id | id in Within(g, spec, nodes[start].value.id, spec.Radius()) && id != nodes[start].value.id
      ensures id in byId && byId[id] in p.out
    {
      ClosedIsComplete(g, nodes, edges, byId, byRelId, spec, start, p.seen, depth, spec.Radius(), spec.Radius(), id);
      assert nodes[byId[id]].value.id == id;
    }
  }

  /** Nothing nearer is emitted later or left out. */
  ghost predicate NearestFirst(g: Graph, spec: Spec, start: MemoryId, ids: seq<MemoryId>) {
    forall j, k: nat, id ::
      && 0 <= j < |ids| && k <= spec.Radius() && id in Within(g, spec, start, k) && id != start && id !in ids[..j]
      ==> ids[j] in Within(g, spec, start, k)
  }

  function IdsOf(ms: seq<Memory>): (ids: seq<MemoryId>)
    ensures |ids| == |ms| && forall i :: 0 <= i < |ms| ==> ids[i] == ms[i].id
  {
    seq(|ms|, i requires 0 <= i < |ms| => ms[i].id)
  }

  /** Everything has been met out to the depth of the queue, and nothing more than one level beyond it. */
  lemma QueueIsBeyond(g: Graph, nodes: Nodes, edges: Edges, spec: Spec, start: nat, p: Progress, depth: map<nat, nat>,
      level: nat, expanded: set<nat>) returns (limit: nat)
    requires Frontier(g, nodes, spec, start, p, depth, level)
    requires Accounted(spec, p, depth, expanded) && Expanded(nodes, edges, spec, p, depth, expanded)
    ensures Closed(nodes, edges, spec, p.seen, depth, limit)
    ensures limit >= spec.Radius() || forall v :: v in p.seen ==> depth[v] <= limit + 1
  {
    limit := if p.queue == [] then spec.Radius() else p.queue[0].1;
    hide Sound, Step, Ascending, Distinct;
  }

  lemma NoneIsNearest(g: Graph, spec: Spec, start: MemoryId)
    ensures NearestFirst(g, spec, start, IdsOf([]))
  {
  }

  lemma EmitsNearestFirst(g: Graph, nodes: Nodes, edges: Edges, byId: map<MemoryId, nat>,
      byRelId: map<RelationshipId, nat>, spec: Spec, start: nat, p: Progress, depth: map<nat, nat>, level: nat,
      expanded: set<nat>)
    requires Mirrors(g, nodes, edges, byId, byRelId) && Frontier(g, nodes, spec, start, p, depth, level)
    requires Accounted(spec, p, depth, expanded) && Expanded(nodes, edges, spec, p, depth, expanded)
    ensures forall i :: 0 <= i < |p.out| ==> p.out[i] < |nodes| && nodes[p.out[i]].Some?
    ensures NearestFirst(g, spec, nodes[start].value.id, IdsOf(MemoriesAt(nodes, p.out)))
  {
    MetAreSound(g, nodes, spec, start, p, depth, level);
    var limit := QueueIsBeyond(g, nodes, edges, spec, start, p, depth, level, expanded);
    assert forall i :: 0 <= i < |p.out| ==> p.out[i] in p.out;
    var (ids, from) := (IdsOf(MemoriesAt(nodes, p.out)), nodes[start].value.id);
    hide Mirrors, Closed, Accounted, Expanded, Frontier;
    forall j, k: nat, id | 0 <= j < |ids| && k <= spec.Radius() && id in Within(g, spec, from, k) && id != from
      && id !in ids[..j] ensures ids[j] in Within(g, spec, from, k)
    {
      if k <= limit {
        ClosedIsComplete(g, nodes, edges, byId, byRelId, spec, start, p.seen, depth, limit, k, id);
        NotMetSooner(g, nodes, spec, start, p, depth, level, byId[id], j, k);
      }
      MetBy(g, nodes, spec, start, p, depth, level, j, k);
    }
  }

  /** A node met within `k` hops that is not among the first is no nearer than they are. */
  lemma NotMetSooner(g: Graph, nodes: Nodes, spec: Spec, start: nat, p: Progress, depth: map<nat, nat>, level: nat,
      v: nat, j: nat, k: nat)
    requires Frontier(g, nodes, spec, start, p, depth, level) && j < |p.out|
    requires v in p.seen && v != start && depth[v] <= k && v !in p.out[..j]
    ensures p.out[j] in depth && depth[p.out[j]] <= k
  {
    hide Sound, Distinct, Live;
    var m :| 0 <= m < |p.out| && p.out[m] == v;
    assert p.out == p.out[..j] + p.out[j..];
    assert m >= j;
  }

  lemma MetBy(g: Graph, nodes: Nodes, spec: Spec, start: nat, p: Progress, depth: map<nat, nat>, level: nat, j: nat,
      k: nat)
    requires Frontier(g, nodes, spec, start, p, depth, level) && j < |p.out|
    requires p.out[j] in depth ==> depth[p.out[j]] <= k
    ensures Sound(g, nodes, spec, start, p.out[j], k)
  {
    hide Sound, Distinct, Live;
    SoundGrows(g, nodes, spec, start, p.out[j], depth[p.out[j]], k);
  }

  lemma SoundGrows(g: Graph, nodes: Nodes, spec: Spec, start: nat, v: nat, j: nat, k: nat)
    requires Sound(g, nodes, spec, start, v, j) && j <= k
    ensures Sound(g, nodes, spec, start, v, k)
  {
    WithinGrows(g, spec, nodes[start].value.id, j, k);
  }

  lemma StartIsFrontier(g: Graph, nodes: Nodes, edges: Edges, byId: map<MemoryId, nat>,
      byRelId: map<RelationshipId, nat>, spec: Spec, start: nat)
    requires Mirrors(g, nodes, edges, byId, byRelId) && Live(nodes, start) && spec.visible(nodes[start].value)
    ensures var (p, depth) := (Progress([], [(start, 0)], {start}), map[start := 0]);
      && Frontier(g, nodes, spec, start, p, depth, 0)
      && Accounted(spec, p, depth, {}) && Expanded(nodes, edges, spec, p, depth, {})
  {
    assert Sound(g, nodes, spec, start, start, 0);
    hide Sound, Step, Mirrors;
    assert [(start, 0)][0].0 == start;
  }

  ghost function Unmet(nodes: Nodes, seen: set<nat>): set<nat> {
    (set i: nat | i < |nodes| && nodes[i].Some?) - seen
  }

  lemma UnmetShrinks(g: Graph, nodes: Nodes, spec: Spec, start: nat, p0: Progress, p: Progress, depth: map<nat, nat>,
      d: nat)
    requires Frontier(g, nodes, spec, start, p, depth, d) && p0.seen <= p.seen
    ensures p0.seen == p.seen || Unmet(nodes, p.seen) < Unmet(nodes, p0.seen)
  {
    if v :| v in p.seen && v !in p0.seen {
      assert Sound(g, nodes, spec, start, v, depth[v]);
      assert v in Unmet(nodes, p0.seen) && v !in Unmet(nodes, p.seen);
    }
  }

  /** The search over the vectors: sound and nearest first always, complete unless the node cap was reached. */
  method BreadthFirst(nodes: Nodes, edges: Edges, spec: Spec, start: nat,
                      ghost g: Graph, ghost byId: map<MemoryId, nat>, ghost byRelId: map<RelationshipId, nat>)
    returns (out: seq<nat>)
    requires Mirrors(g, nodes, edges, byId, byRelId) && Live(nodes, start) && spec.visible(nodes[start].value)
    ensures Distinct(out) && start !in out
    ensures forall v :: v in out ==> Sound(g, nodes, spec, start, v, spec.Radius())
    ensures forall i :: 0 <= i < |out| ==> out[i] < |nodes| && nodes[out[i]].Some?
    ensures NearestFirst(g, spec, nodes[start].value.id, IdsOf(MemoriesAt(nodes, out)))
    ensures |out| < spec.maxNodes ==>
      forall id :: id in Within(g, spec, nodes[start].value.id, spec.Radius()) && id != nodes[start].value.id ==>
        id in byId && byId[id] in out
  {
    var p := Progress([], [(start, 0)], {start});
    ghost var depth: map<nat, nat>, expanded: set<nat>, level: nat := map[start := 0], {}, 0;
    StartIsFrontier(g, nodes, edges, byId, byRelId, spec, start);
    hide Sound, Step, Mirrors, Accounted, Expanded, Frontier, Live, NearestFirst;
    while p.queue != []
      invariant depth.Keys == p.seen && Frontier(g, nodes, spec, start, p, depth, level)
      invariant Accounted(spec, p, depth, expanded) && expanded <= p.seen
      invariant Expanded(nodes, edges, spec, p, depth, expanded)
      decreases Unmet(nodes, p.seen), |p.queue|
    {
      if |p.out| >= spec.maxNodes { break; }
      var (n, d) := p.queue[0];
      PopKeeps(g, nodes, spec, start, p, depth, level, expanded);
      p := p.(queue := p.queue[1..]);
      level := d;
      ghost var popped := p;
      p, depth := Expand(nodes, edges, spec, start, n, d, p, g, byId, byRelId, depth, expanded);
      UnmetShrinks(g, nodes, spec, start, popped, p, depth, d);
      expanded := expanded + {n};
    }
    out := p.out;
    MetAreSound(g, nodes, spec, start, p, depth, level);
    EmitsNearestFirst(g, nodes, edges, byId, byRelId, spec, start, p, depth, level, expanded);
    if p.queue == [] {
      Finished(g, nodes, edges, byId, byRelId, spec, start, p, depth, level, expanded);
    }
  }

  lemma MetAreSound(g: Graph, nodes: Nodes, spec: Spec, start: nat, p: Progress, depth: map<nat, nat>, level: nat)
    requires Frontier(g, nodes, spec, start, p, depth, level)
    ensures forall v :: v in p.out ==> Sound(g, nodes, spec, start, v, spec.Radius())
  {
    hide Sound;
    forall v | v in p.out ensures Sound(g, nodes, spec, start, v, spec.Radius()) {
      SoundGrows(g, nodes, spec, start, v, depth[v], spec.Radius());
    }
  }

  /** Taking the front of the queue raises the level to its depth. */
  lemma PopKeeps(g: Graph, nodes: Nodes, spec: Spec, start: nat, p: Progress, depth: map<nat, nat>, level: nat,
      expanded: set<nat>)
    requires Frontier(g, nodes, spec, start, p, depth, level) && p.queue != [] && Accounted(spec, p, depth, expanded)
    ensures var q := p.(queue := p.queue[1..]);
      && Frontier(g, nodes, spec, start, q, depth, p.queue[0].1)
      && Accounted(spec, q, depth, expanded + {p.queue[0].0})
  {
    var q := p.(queue := p.queue[1..]);
    forall v | v in q.seen && depth[v] < spec.Radius()
      ensures v in expanded + {p.queue[0].0} || Queued(q, v)
    {
      if v !in expanded && v != p.queue[0].0 {
        var i :| 0 <= i < |p.queue| && p.queue[i].0 == v;
        assert q.queue[i - 1].0 == v;
      }
    }
  }

  function MemoriesAt(nodes: Nodes, at: seq<nat>): (out: seq<Memory>)
    requires forall i :: 0 <= i < |at| ==> at[i] < |nodes| && nodes[at[i]].Some?
    ensures |out| == |at| && forall i :: 0 <= i < |at| ==> out[i] == nodes[at[i]].value
  {
    seq(|at|, i requires 0 <= i < |at| => nodes[at[i]].value)
  }

  ghost predicate VisibleIn(g: Graph, spec: Spec, id: MemoryId) {
    id in g.memories && spec.visible(g.memories[id])
  }

  /** `traverse`: the visible memories within the radius of a visible start, each once, without the
      start, nearest first. Every memory returned is one of those; all of them are returned unless the node cap
      was reached, and then none that is left out is nearer than one returned. An unknown or invisible start yields
      nothing. */
  method Traverse(snap: GraphSnapshot, from: MemoryId, spec: Spec) returns (out: seq<Memory>)
    requires snap.Valid()
    ensures !VisibleIn(snap.Contents(), spec, from) ==> out == []
    ensures forall i, j :: 0 <= i < j < |out| ==> out[i].id != out[j].id
    ensures forall i :: 0 <= i < |out| ==>
      && out[i].id != from && VisibleIn(snap.Contents(), spec, out[i].id)
        && snap.Contents().memories[out[i].id] == out[i]
      && out[i].id in Within(snap.Contents(), spec, from, spec.Radius())
    ensures NearestFirst(snap.Contents(), spec, from, IdsOf(out))
    ensures VisibleIn(snap.Contents(), spec, from) && |out| < spec.maxNodes ==>
      forall id :: id in Within(snap.Contents(), spec, from, spec.Radius()) && id != from ==>
        id in snap.Contents().memories && snap.Contents().memories[id] in out
  {
    hide EdgesAgree, EntitiesAgree, SlotsAgree, Total, LinksOf, Within, NearestFirst;
    ghost var g := snap.Contents();
    if from !in snap.byId || !spec.visible(snap.nodes[snap.byId[from]].value) {
      NoneIsNearest(g, spec, from);
      return [];
    }
    var met := BreadthFirst(snap.nodes, snap.edges, spec, snap.byId[from], g, snap.byId, snap.byRelId);
    assert forall i :: 0 <= i < |met| ==> met[i] in met;
    out := MemoriesAt(snap.nodes, met);
    forall id | |met| < spec.maxNodes && id in Within(g, spec, from, spec.Radius()) && id != from
      ensures id in g.memories && g.memories[id] in out
    {
      var i :| 0 <= i < |met| && met[i] == snap.byId[id];
      assert out[i] == g.memories[id];
    }
  }
}
