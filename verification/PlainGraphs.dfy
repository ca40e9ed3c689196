/** The plain graph of one org: what a snapshot means, independent of every index it keeps. */
module PlainGraphs {
  import opened Common

  type MemoryId = nat
  type EntityId = nat
  type RelationshipId = nat

  datatype Memory = Memory(
    id: MemoryId,
    title: string,
    content: string,
    tags: seq<string>,
    entities: seq<EntityId>)

  datatype Relationship = Relationship(
    id: RelationshipId,
    from: MemoryId,
    to: MemoryId,
    kind: nat,
    visibility: nat)

  /** An edge between memories. `from`/`to` are the endpoints the edge was created with; a later
      upsert of the same relationship id replaces `weight` and leaves them alone. */
  datatype Link = Link(from: MemoryId, to: MemoryId, weight: Relationship)

  datatype Graph = Graph(
    memories: map<MemoryId, Memory>,
    links: map<RelationshipId, Link>,
    localLsn: nat,
    backendLsn: nat)

  const EMPTY := Graph(map[], map[], 0, 0)

  datatype Delta =
    | UpsertMemory(memory: Memory)
    | DeleteMemory(id: MemoryId)
    | UpsertRelationship(relationship: Relationship)
    | DeleteRelationship(relId: RelationshipId)
    | AdvanceBackendLsn(lsn: nat)
    | AdvanceLocalLsn(lsn: nat)

  function RemoveMemory(g: Graph, id: MemoryId): Graph {
    g.(memories := g.memories - {id},
       links := map r | r in g.links && g.links[r].from != id && g.links[r].to != id :: g.links[r])
  }

  function InsertRelationship(g: Graph, r: Relationship): Graph {
    if r.from !in g.memories || r.to !in g.memories then g
    else if r.id in g.links then g.(links := g.links[r.id := g.links[r.id].(weight := r)])
    else g.(links := g.links[r.id := Link(r.from, r.to, r)])
  }

  function Apply(g: Graph, delta: Delta): Graph {
    match delta
    case UpsertMemory(m) => g.(memories := g.memories[m.id := m])
    case DeleteMemory(id) => RemoveMemory(g, id)
    case UpsertRelationship(r) => InsertRelationship(g, r)
    case DeleteRelationship(r) => g.(links := g.links - {r})
    case AdvanceBackendLsn(lsn) => g.(backendLsn := Max(g.backendLsn, lsn))
    case AdvanceLocalLsn(lsn) => g.(localLsn := Max(g.localLsn, lsn))
  }

  /** Left fold of a run of deltas. */
  function ApplyAll(g: Graph, deltas: seq<Delta>): Graph
    decreases |deltas|
  {
    if deltas == [] then g
    else ApplyAll(Apply(g, deltas[0]), deltas[1..])
  }

  lemma {:induction false} ApplyAllConcat(g: Graph, a: seq<Delta>, b: seq<Delta>)
    ensures ApplyAll(g, a + b) == ApplyAll(ApplyAll(g, a), b)
    decreases |a|
  {
    if a == [] {
      assert a + b == b;
    } else {
      assert (a + b)[1..] == a[1..] + b;
      ApplyAllConcat(Apply(g, a[0]), a[1..], b);
    }
  }

  lemma {:induction false} ApplyLast(g: Graph, before: seq<Delta>, last: Delta)
    ensures ApplyAll(g, before + [last]) == Apply(ApplyAll(g, before), last)
  {
    ApplyAllConcat(g, before, [last]);
    assert [last][1..] == [];
  }

  /** Every link of a well-formed graph joins memories the graph holds, under its own id. */
  ghost predicate WellFormed(g: Graph) {
    && (forall id :: id in g.memories ==> g.memories[id].id == id)
    && (forall r :: r in g.links ==>
          g.links[r].weight.id == r && g.links[r].from in g.memories && g.links[r].to in g.memories)
  }

  lemma ApplyKeepsWellFormed(g: Graph, delta: Delta)
    requires WellFormed(g)
    ensures WellFormed(Apply(g, delta))
  {
  }

  // ----- what a graph holds, read off its history

  /** The graph after the first `n` deltas. */
  function GraphAt(acts: seq<Delta>, n: nat): Graph
    requires n <= |acts|
  {
    ApplyAll(EMPTY, acts[..n])
  }

  lemma GraphSteps(acts: seq<Delta>, n: nat)
    requires n < |acts|
    ensures GraphAt(acts, n + 1) == Apply(GraphAt(acts, n), acts[n])
    ensures GraphAt(acts, n) == GraphAt(acts[..n], n)
  {
    assert acts[..n + 1] == acts[..n] + [acts[n]] && acts[..n][..n] == acts[..n];
    ApplyLast(EMPTY, acts[..n], acts[n]);
  }

  predicate Touches(d: Delta, id: MemoryId) {
    (d.UpsertMemory? && d.memory.id == id) || (d.DeleteMemory? && d.id == id)
  }

  ghost predicate LastUpsert(acts: seq<Delta>, i: nat, id: MemoryId, m: Memory) {
    i < |acts| && acts[i] == UpsertMemory(m) && m.id == id && forall j :: i < j < |acts| ==> !Touches(acts[j], id)
  }

  /** A memory is live, with these contents, if and only if the last delta naming it wrote them. */
  lemma {:induction false} MemoryIsLastUpsert(acts: seq<Delta>, id: MemoryId, m: Memory)
    ensures var g := GraphAt(acts, |acts|);
      id in g.memories && g.memories[id] == m <==> exists i: nat :: LastUpsert(acts, i, id, m)
  {
    if acts != [] {
      var (n, before) := (|acts| - 1, acts[..|acts| - 1]);
      MemoryIsLastUpsert(before, id, m);
      GraphSteps(acts, n);
      hide GraphAt;
      if Touches(acts[n], id) {
        if acts[n] == UpsertMemory(m) { assert LastUpsert(acts, n, id, m); }
      } else {
        if i: nat :| LastUpsert(before, i, id, m) { assert LastUpsert(acts, i, id, m); }
        if i: nat :| LastUpsert(acts, i, id, m) { assert LastUpsert(before, i, id, m); }
      }
    }
  }

  /** The delta states relationship `id` while both its endpoints are live. */
  ghost predicate Lands(acts: seq<Delta>, i: nat, id: RelationshipId) {
    && i < |acts| && acts[i].UpsertRelationship? && acts[i].relationship.id == id
    && acts[i].relationship.from in GraphAt(acts, i).memories && acts[i].relationship.to in GraphAt(acts, i).memories
  }

  /** It goes by its own deletion and by that of either endpoint. */
  predicate Severs(d: Delta, id: RelationshipId, from: MemoryId, to: MemoryId) {
    d == DeleteRelationship(id) || d == DeleteMemory(from) || d == DeleteMemory(to)
  }

  /** Delta `c` makes the link where there is none; nothing severs it afterwards; `w` is the last to land on it. */
  ghost predicate LinkLasts(acts: seq<Delta>, c: nat, w: nat, id: RelationshipId, link: Link) {
    && Lands(acts, c, id) && id !in GraphAt(acts, c).links
    && acts[c].relationship.from == link.from && acts[c].relationship.to == link.to
    && (forall j :: c < j < |acts| ==> !Severs(acts[j], id, link.from, link.to))
    && c <= w && Lands(acts, w, id) && acts[w].relationship == link.weight
    && forall j: nat :: w < j ==> !Lands(acts, j, id)
  }

  lemma LandsEarlier(acts: seq<Delta>, n: nat, i: nat, id: RelationshipId)
    requires i < n <= |acts|
    ensures GraphAt(acts[..n], i) == GraphAt(acts, i)
    ensures Lands(acts[..n], i, id) <==> Lands(acts, i, id)
  {
    assert acts[..n][..i] == acts[..i];
  }

  lemma {:induction false} LinkHasCause(acts: seq<Delta>, id: RelationshipId) returns (c: nat, w: nat)
    requires id in GraphAt(acts, |acts|).links
    ensures LinkLasts(acts, c, w, id, GraphAt(acts, |acts|).links[id])
  {
    c, w := 0, 0;
    if acts != [] {
      var (n, before) := (|acts| - 1, acts[..|acts| - 1]);
      var g := GraphAt(acts, n);
      GraphSteps(acts, n);
      c, w := n, n;
      if !Lands(acts, n, id) || id in g.links {
        c, w := LinkHasCause(before, id);
        StillLasts(acts, c, w, id, g.links[id]);
        if Lands(acts, n, id) { w := n; }
      }
    }
  }

  /** What lasts before the last delta lasts after it, or is landed on by it. */
  lemma StillLasts(acts: seq<Delta>, c: nat, w: nat, id: RelationshipId, link: Link)
    requires acts != []
    requires var n := |acts| - 1; LinkLasts(acts[..n], c, w, id, link) && !Severs(acts[n], id, link.from, link.to)
    ensures var n := |acts| - 1;
      if Lands(acts, n, id) then LinkLasts(acts, c, n, id, link.(weight := acts[n].relationship))
      else LinkLasts(acts, c, w, id, link)
  {
    var n := |acts| - 1;
    forall i: nat | i < n
      ensures GraphAt(acts[..n], i) == GraphAt(acts, i) && (Lands(acts[..n], i, id) <==> Lands(acts, i, id))
    {
      LandsEarlier(acts, n, i, id);
    }
    hide GraphAt;
  }

  lemma {:induction false} LastLanding(acts: seq<Delta>, c: nat, id: RelationshipId, n: nat) returns (w: nat)
    requires c < n <= |acts| && Lands(acts, c, id)
    ensures c <= w < n && Lands(acts, w, id) && forall j: nat :: w < j < n ==> !Lands(acts, j, id)
  {
    w := n - 1;
    if !Lands(acts, w, id) { w := LastLanding(acts, c, id, n - 1); }
  }

  lemma {:induction false} CauseMakesLink(acts: seq<Delta>, c: nat, w: nat, id: RelationshipId, link: Link)
    requires LinkLasts(acts, c, w, id, link)
    ensures id in GraphAt(acts, |acts|).links && GraphAt(acts, |acts|).links[id] == link
  {
    var n := |acts| - 1;
    GraphSteps(acts, n);
    if c < n {
      var v := LastLanding(acts, c, id, n);
      var earlier := link.(weight := acts[v].relationship);
      LastedBefore(acts, c, v, id, earlier);
      CauseMakesLink(acts[..n], c, v, id, earlier);
      assert if Lands(acts, n, id) then w == n else w == v;
    }
  }

  lemma LastedBefore(acts: seq<Delta>, c: nat, v: nat, id: RelationshipId, link: Link)
    requires acts != [] && c <= v < |acts| - 1 && Lands(acts, c, id) && Lands(acts, v, id)
    requires id !in GraphAt(acts, c).links && acts[c].relationship.from == link.from
      && acts[c].relationship.to == link.to
    requires forall j :: c < j < |acts| ==> !Severs(acts[j], id, link.from, link.to)
    requires acts[v].relationship == link.weight && forall j: nat :: v < j < |acts| - 1 ==> !Lands(acts, j, id)
    ensures LinkLasts(acts[..|acts| - 1], c, v, id, link)
  {
    var n := |acts| - 1;
    forall i: nat | i < n
      ensures GraphAt(acts[..n], i) == GraphAt(acts, i) && (Lands(acts[..n], i, id) <==> Lands(acts, i, id))
    {
      LandsEarlier(acts, n, i, id);
    }
    hide GraphAt;
  }

  /** A link is live if and only if some delta made it between live endpoints and none has severed it since. It has
      the endpoints it was made with, and the weight of the last delta that found its endpoints live. */
  lemma LinkIsLast(acts: seq<Delta>, id: RelationshipId, link: Link)
    ensures var g := GraphAt(acts, |acts|);
      id in g.links && g.links[id] == link <==> exists c: nat, w: nat :: LinkLasts(acts, c, w, id, link)
  {
    hide GraphAt, LinkLasts;
    if id in GraphAt(acts, |acts|).links { var c, w := LinkHasCause(acts, id); }
    if c: nat, w: nat :| LinkLasts(acts, c, w, id, link) { CauseMakesLink(acts, c, w, id, link); }
  }

  /** Each frontier is the furthest any delta named. */
  lemma {:induction false} FrontiersAreFurthest(acts: seq<Delta>)
    ensures var g := GraphAt(acts, |acts|);
      && (forall i :: 0 <= i < |acts| && acts[i].AdvanceBackendLsn? ==> acts[i].lsn <= g.backendLsn)
      && (forall i :: 0 <= i < |acts| && acts[i].AdvanceLocalLsn? ==> acts[i].lsn <= g.localLsn)
      && (g.backendLsn == 0 || AdvanceBackendLsn(g.backendLsn) in acts)
      && (g.localLsn == 0 || AdvanceLocalLsn(g.localLsn) in acts)
  {
    if acts != [] {
      var n := |acts| - 1;
      FrontiersAreFurthest(acts[..n]);
      GraphSteps(acts, n);
      hide GraphAt;
      assert acts == acts[..n] + [acts[n]];
    }
  }
}
