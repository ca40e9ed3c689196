/** The indexes a snapshot keeps beside its node and edge vectors, and how each agrees with them. */
module Indexes {
  import opened Common
  import opened PlainGraphs
  import opened Arena

  /** A stored edge: endpoints are node indices. */
  datatype Edge = Edge(source: nat, target: nat, weight: Relationship)

  type Nodes = seq<Option<Memory>>
  type Edges = seq<Option<Edge>>

  const EDGE_BYTES: nat := 256
  const MIN_COMPACTION_GARBAGE: nat := 1024

  // ----- row estimates and search keys

  function LowerChar(c: char): char {
    if 'A' <= c <= 'Z' then (c as int + 32) as char else c
  }

  function Lower(s: string): (r: string)
    ensures |r| == |s|
  {
    seq(|s|, i requires 0 <= i < |s| => LowerChar(s[i]))
  }

  function TagBytes(tags: seq<string>): nat {
    if tags == [] then 0 else |tags[0]| + 8 + TagBytes(tags[1..])
  }

  function Estimate(m: Memory): nat {
    512 + |m.title| + |m.content| + TagBytes(m.tags)
  }

  function TagKeys(tags: seq<string>): string {
    if tags == [] then "" else [BLANK] + Lower(tags[0]) + TagKeys(tags[1..])
  }

  /** Lowercase title followed by each tag after a space. */
  function Key(m: Memory): string {
    Lower(m.title) + TagKeys(m.tags)
  }

  /** Where tag `i` starts behind the title, with its space. */
  function TagStart(tags: seq<string>, i: nat): nat
    requires i <= |tags|
  {
    if i == 0 then 0 else TagStart(tags, i - 1) + 1 + |tags[i - 1]|
  }

  /** The word stands at this place of the text, behind a space. */
  ghost predicate StandsAt(text: string, at: nat, word: string) {
    at + |word| < |text| && text[at..at + 1 + |word|] == [BLANK] + word
  }

  /** The key spells out the row and nothing else: the title, then each tag behind a space, all in lower case. */
  lemma KeySpellsRow(m: Memory)
    ensures |Key(m)| == |m.title| + TagStart(m.tags, |m.tags|) && Lower(m.title) <= Key(m)
    ensures forall i :: 0 <= i < |m.tags| ==> StandsAt(Key(m), |m.title| + TagStart(m.tags, i), Lower(m.tags[i]))
  {
    hide Lower, TagStart, StandsAt;
    forall i | 0 <= i < |m.tags|
      ensures StandsAt(Key(m), |m.title| + TagStart(m.tags, i), Lower(m.tags[i]))
    {
      KeySpellsTag(m, i);
    }
    TagKeysLength(m.tags, |m.tags|);
  }

  lemma {:induction false} KeySpellsTag(m: Memory, i: nat)
    requires i < |m.tags|
    ensures StandsAt(Key(m), |m.title| + TagStart(m.tags, i), Lower(m.tags[i]))
  {
    hide Lower, StandsAt, TagKeys, TagStart;
    TagKeysAt(m.tags, i);
    Behind(Lower(m.title), TagKeys(m.tags), TagStart(m.tags, i), Lower(m.tags[i]));
  }

  lemma Behind(front: string, rest: string, at: nat, word: string)
    requires StandsAt(rest, at, word)
    ensures StandsAt(front + rest, |front| + at, word)
  {
    assert (front + rest)[|front| + at..|front| + at + 1 + |word|] == rest[at..at + 1 + |word|];
  }

  lemma {:induction false} TagKeysLength(tags: seq<string>, i: nat)
    requires i <= |tags|
    ensures |TagKeys(tags)| == TagStart(tags, i) + |TagKeys(tags[i..])|
  {
    if i == 0 { assert tags[0..] == tags; } else { TagKeysLength(tags, i - 1); assert tags[i - 1..][1..] == tags[i..]; }
  }

  lemma {:induction false} TagKeysAt(tags: seq<string>, i: nat)
    requires i < |tags|
    ensures StandsAt(TagKeys(tags), TagStart(tags, i), Lower(tags[i]))
  {
    TagKeysLength(tags, i);
    TagKeysLength(tags, i + 1);
    TagKeysFrom(tags, i);
    assert TagKeys(tags)[TagStart(tags, i)..][..1 + |tags[i]|] == [BLANK] + Lower(tags[i]);
  }

  lemma {:induction false} TagKeysFrom(tags: seq<string>, i: nat)
    requires i <= |tags| && TagStart(tags, i) <= |TagKeys(tags)|
    ensures TagKeys(tags)[TagStart(tags, i)..] == TagKeys(tags[i..])
  {
    if i == 0 {
      assert tags[0..] == tags;
    } else {
      TagKeysFrom(tags, i - 1);
      assert tags[i - 1..][1..] == tags[i..];
      assert TagKeys(tags)[TagStart(tags, i)..] == TagKeys(tags)[TagStart(tags, i - 1)..][1 + |tags[i - 1]|..];
    }
  }

  function KeyBytes(m: Memory): nat { |Key(m)| + 1 }

  function EdgeBytes(e: Edge): nat { EDGE_BYTES }

  // ----- agreement of each index with the node and edge vectors

  /** `byId` is a bijection from memory ids onto live nodes. */
  ghost predicate NodesAgree(nodes: Nodes, byId: map<MemoryId, nat>) {
    && (forall id :: id in byId ==>
          byId[id] < |nodes| && nodes[byId[id]].Some? && nodes[byId[id]].value.id == id)
    && (forall ix :: 0 <= ix < |nodes| && nodes[ix].Some? ==>
          nodes[ix].value.id in byId && byId[nodes[ix].value.id] == ix)
  }

  ghost predicate Live(nodes: Nodes, ix: nat) {
    ix < |nodes| && nodes[ix].Some?
  }

  /** `byRelId` is a bijection from relationship ids onto live edges, and live edges join live nodes. */
  ghost predicate EdgesAgree(nodes: Nodes, edges: Edges, byRelId: map<RelationshipId, nat>) {
    && (forall r :: r in byRelId ==>
          byRelId[r] < |edges| && edges[byRelId[r]].Some? && edges[byRelId[r]].value.weight.id == r)
    && (forall e :: 0 <= e < |edges| && edges[e].Some? ==>
          && edges[e].value.weight.id in byRelId && byRelId[edges[e].value.weight.id] == e
          && Live(nodes, edges[e].value.source) && Live(nodes, edges[e].value.target))
  }

  function About(byEntity: map<EntityId, seq<MemoryId>>, e: EntityId): seq<MemoryId> {
    if e in byEntity then byEntity[e] else []
  }

  ghost predicate Known(nodes: Nodes, id: MemoryId) {
    exists ix :: 0 <= ix < |nodes| && nodes[ix].Some? && nodes[ix].value.id == id
  }

  /** `byEntity` lists a memory under an entity as often as the memory names it, lists only live
      memories, and keeps no empty list. */
  ghost predicate EntitiesAgree(nodes: Nodes, byEntity: map<EntityId, seq<MemoryId>>) {
    && (forall e :: e in byEntity ==> byEntity[e] != [])
    && (forall e: EntityId, ix {:trigger About(byEntity, e), nodes[ix]} ::
          0 <= ix < |nodes| && nodes[ix].Some? ==>
            multiset(About(byEntity, e))[nodes[ix].value.id] == multiset(nodes[ix].value.entities)[e])
    && (forall e: EntityId, id: MemoryId {:trigger id in About(byEntity, e)} ::
          id in About(byEntity, e) ==> Known(nodes, id))
  }

  /** Every live node owns exactly one live arena slot, holding its search key. */
  ghost predicate SlotsAgree(nodes: Nodes, slotNodes: seq<nat>, slotKeys: seq<Option<string>>, slotOf: map<nat, nat>) {
    && |slotNodes| == |slotKeys|
    && (forall i :: 0 <= i < |slotNodes| ==> slotNodes[i] < |nodes|)
    && (forall i :: 0 <= i < |slotKeys| && slotKeys[i].Some? ==>
          && Live(nodes, slotNodes[i]) && slotKeys[i].value == Key(nodes[slotNodes[i]].value)
          && slotNodes[i] in slotOf && slotOf[slotNodes[i]] == i)
    && (forall ix :: 0 <= ix < |nodes| && nodes[ix].Some? ==> ix in slotOf)
    && (forall ix :: ix in slotOf ==>
          Live(nodes, ix) && slotOf[ix] < |slotKeys| && slotNodes[slotOf[ix]] == ix && slotKeys[slotOf[ix]].Some?)
  }

  // ----- the graph a snapshot stands for

  ghost function MemoriesOf(nodes: Nodes, byId: map<MemoryId, nat>): map<MemoryId, Memory>
    requires NodesAgree(nodes, byId)
  {
    map id | id in byId :: nodes[byId[id]].value
  }

  ghost function LinkOf(nodes: Nodes, e: Edge): Link
    requires Live(nodes, e.source) && Live(nodes, e.target)
  {
    Link(nodes[e.source].value.id, nodes[e.target].value.id, e.weight)
  }

  ghost function LinksOf(nodes: Nodes, edges: Edges, byRelId: map<RelationshipId, nat>): map<RelationshipId, Link>
    requires EdgesAgree(nodes, edges, byRelId)
  {
    map r | r in byRelId :: LinkOf(nodes, edges[byRelId[r]].value)
  }

  /** A memory is listed only under entities it names. */
  lemma NotListedElsewhere(nodes: Nodes, byEntity: map<EntityId, seq<MemoryId>>, ix: nat)
    requires Live(nodes, ix) && EntitiesAgree(nodes, byEntity)
    ensures forall e: EntityId :: e !in nodes[ix].value.entities ==> nodes[ix].value.id !in About(byEntity, e)
  {
    forall e: EntityId | e !in nodes[ix].value.entities
      ensures nodes[ix].value.id !in About(byEntity, e)
    {
      assert multiset(About(byEntity, e))[nodes[ix].value.id] == multiset(nodes[ix].value.entities)[e];
    }
  }

  /** Entities after a memory is dropped from every list. */
  lemma EntitiesAfterDrop(nodes: Nodes, byId: map<MemoryId, nat>, before: map<EntityId, seq<MemoryId>>,
                          after: map<EntityId, seq<MemoryId>>, ix: nat)
    requires NodesAgree(nodes, byId) && Live(nodes, ix) && EntitiesAgree(nodes, before)
    requires forall e :: e in after ==> after[e] != []
    requires forall e: EntityId :: About(after, e) == Without(About(before, e), nodes[ix].value.id)
    ensures EntitiesAgree(nodes[ix := None], after)
  {
    var id, cut := nodes[ix].value.id, nodes[ix := None];
    forall e: EntityId, x: MemoryId | x in About(after, e)
      ensures Known(cut, x)
    {
      assert x in About(before, e);
      var w :| 0 <= w < |nodes| && nodes[w].Some? && nodes[w].value.id == x;
      assert cut[w].Some?;
    }
    forall e: EntityId, w | 0 <= w < |cut| && cut[w].Some?
      ensures multiset(About(after, e))[cut[w].value.id] == multiset(cut[w].value.entities)[e]
    {
      assert nodes[w].value.id != id;
    }
  }

  /** Entities after a memory is added to the lists of the entities it names. */
  lemma EntitiesAfterAdd(nodes: Nodes, before: map<EntityId, seq<MemoryId>>,
                         after: map<EntityId, seq<MemoryId>>, ix: nat, m: Memory)
    requires ix < |nodes| && nodes[ix].None? && !Known(nodes, m.id) && EntitiesAgree(nodes, before)
    requires forall e :: e in after ==> after[e] != []
    requires forall e: EntityId, x: MemoryId ::
      multiset(About(after, e))[x] == multiset(About(before, e))[x] + (if x == m.id then multiset(m.entities)[e] else 0)
    ensures EntitiesAgree(nodes[ix := Some(m)], after)
  {
    var grown := nodes[ix := Some(m)];
    forall e: EntityId, x: MemoryId | x in About(after, e)
      ensures Known(grown, x)
    {
      assert multiset(About(after, e))[x] > 0;
      if x == m.id {
        assert grown[ix].value.id == x;
      } else {
        assert x in multiset(About(before, e));
        assert x in About(before, e);
        var w :| 0 <= w < |nodes| && nodes[w].Some? && nodes[w].value.id == x;
        assert grown[w].Some?;
      }
    }
    forall e: EntityId, w | 0 <= w < |grown| && grown[w].Some?
      ensures multiset(About(after, e))[grown[w].value.id] == multiset(grown[w].value.entities)[e]
    {
      if w == ix {
        assert m.id !in About(before, e);
        assert m.id !in multiset(About(before, e));
      } else {
        assert nodes[w].value.id != m.id;
      }
    }
  }

  /** Blanking every slot of a node leaves the slots of the others in agreement. */
  lemma SlotsAfterDrop(nodes: Nodes, slotNodes: seq<nat>, keys: seq<Option<string>>, keys': seq<Option<string>>,
                       slotOf: map<nat, nat>, ix: nat)
    requires SlotsAgree(nodes, slotNodes, keys, slotOf) && ix < |nodes|
    requires |keys'| == |keys|
    requires forall i :: 0 <= i < |keys| ==> keys'[i] == if slotNodes[i] == ix then None else keys[i]
    ensures SlotsAgree(nodes[ix := None], slotNodes, keys', slotOf - {ix})
  {
  }

  lemma SlotsAfterAdd(nodes: Nodes, slotNodes: seq<nat>, keys: seq<Option<string>>, slotOf: map<nat, nat>, ix: nat,
      m: Memory)
    requires SlotsAgree(nodes, slotNodes, keys, slotOf) && ix < |nodes| && nodes[ix].None?
    ensures SlotsAgree(nodes[ix := Some(m)], slotNodes + [ix], keys + [Some(Key(m))], slotOf[ix := |keys|])
  {
  }

  lemma SlotsGrow(nodes: Nodes, slotNodes: seq<nat>, keys: seq<Option<string>>, slotOf: map<nat, nat>)
    requires SlotsAgree(nodes, slotNodes, keys, slotOf)
    ensures SlotsAgree(nodes + [None], slotNodes, keys, slotOf)
  {
  }

  lemma EntitiesGrow(nodes: Nodes, byEntity: map<EntityId, seq<MemoryId>>)
    requires EntitiesAgree(nodes, byEntity)
    ensures EntitiesAgree(nodes + [None], byEntity)
  {
    forall e: EntityId, id: MemoryId | id in About(byEntity, e)
      ensures Known(nodes + [None], id)
    {
      var w :| 0 <= w < |nodes| && nodes[w].Some? && nodes[w].value.id == id;
      assert (nodes + [None])[w].Some?;
    }
  }

  /** The packed keys of `nodes`, none of them blanked. */
  ghost predicate Packed(nodes: Nodes, arena: string, offsets: seq<nat>, owners: seq<nat>, keys: seq<Option<string>>,
      owned: map<nat, nat>) {
    && Represents(arena, offsets, keys)
    && SlotsAgree(nodes, owners, keys, owned)
    && |arena| == Total(nodes, KeyBytes)
  }

  lemma PackMore(nodes: Nodes, node: Option<Memory>, arena: string, offsets: seq<nat>, owners: seq<nat>,
      keys: seq<Option<string>>, owned: map<nat, nat>)
    requires Packed(nodes, arena, offsets, owners, keys, owned)
    ensures node.None? ==> Packed(nodes + [node], arena, offsets, owners, keys, owned)
    ensures node.Some? ==> Packed(nodes + [node], arena + Key(node.value) + [NL], offsets + [|arena|],
      owners + [|nodes|],
                                  keys + [Some(Key(node.value))], owned[|nodes| := |keys|])
  {
    SlotsGrow(nodes, owners, keys, owned);
    TotalAppend(nodes, node, KeyBytes);
    hide Represents, SlotsAgree, Total, Key;
    if node.Some? {
      AppendKey(arena, offsets, keys, Key(node.value));
      SlotsAfterAdd(nodes + [None], owners, keys, owned, |nodes|, node.value);
      assert (nodes + [None])[|nodes| := node] == nodes + [node];
    }
  }

  /** Packs the keys of the live nodes, in node order, with no garbage. */
  method PackKeys(nodes: Nodes)
    returns (arena: string, offsets: seq<nat>, owners: seq<nat>, ghost keys: seq<Option<string>>,
      ghost owned: map<nat, nat>)
    ensures Represents(arena, offsets, keys)
    ensures SlotsAgree(nodes, owners, keys, owned)
    ensures |arena| == Total(nodes, KeyBytes)
  {
    arena, offsets, owners, keys, owned := "", [], [], [], map[];
    for ix := 0 to |nodes|
      invariant Packed(nodes[..ix], arena, offsets, owners, keys, owned)
    {
      hide Packed, Key;
      assert nodes[..ix + 1] == nodes[..ix] + [nodes[ix]];
      PackMore(nodes[..ix], nodes[ix], arena, offsets, owners, keys, owned);
      if nodes[ix].Some? {
        var key := Key(nodes[ix].value);
        offsets := offsets + [|arena|];
        arena := arena + key + [NL];
        owners := owners + [ix];
        owned := owned[ix := |keys|];
        keys := keys + [Some(key)];
      }
    }
    assert nodes[..|nodes|] == nodes;
  }

  lemma NodeOf(nodes: Nodes, byId: map<MemoryId, nat>, id: MemoryId)
    requires NodesAgree(nodes, byId)
    ensures id in byId ==>
      Live(nodes, byId[id]) && nodes[byId[id]].value.id == id && !Known(nodes[byId[id] := None], id)
    ensures id !in byId ==> !Known(nodes, id) && !Known(nodes + [None], id)
  {
  }

  /** Putting a memory into a node that holds the same id, or nothing, changes one entry. */
  lemma MemoriesAfterPut(before: Nodes, room: Nodes, byId: map<MemoryId, nat>, ix: nat, m: Memory)
    requires NodesAgree(before, byId)
    requires room == before || room == before + [None]
    requires ix < |room|
    requires if m.id in byId then byId[m.id] == ix else room[ix].None?
    ensures NodesAgree(room[ix := Some(m)], byId[m.id := ix])
    ensures MemoriesOf(room[ix := Some(m)], byId[m.id := ix]) == MemoriesOf(before, byId)[m.id := m]
  {
  }

  /** Edges do not notice a memory put into a node no edge joins, or replaced under the same id. */
  lemma LinksAfterPut(before: Nodes, room: Nodes, edges: Edges, byRelId: map<RelationshipId, nat>, ix: nat, m: Memory)
    requires EdgesAgree(before, edges, byRelId)
    requires room == before || room == before + [None]
    requires ix < |room| && (room[ix].Some? ==> room[ix].value.id == m.id)
    ensures EdgesAgree(room[ix := Some(m)], edges, byRelId)
    ensures LinksOf(room[ix := Some(m)], edges, byRelId) == LinksOf(before, edges, byRelId)
  {
    var after := room[ix := Some(m)];
    forall w: nat | Live(before, w)
      ensures Live(after, w) && after[w].value.id == before[w].value.id
    {
    }
  }

  predicate Touches(e: Edge, ix: nat) { e.source == ix || e.target == ix }

  /** The edge vector once a node and its incident edges are gone. */
  function Detached(edges: Edges, ix: nat): (r: Edges)
    ensures |r| == |edges|
    ensures forall e :: 0 <= e < |edges| ==>
      r[e] == if edges[e].Some? && Touches(edges[e].value, ix) then None else edges[e]
  {
    seq(|edges|, e requires 0 <= e < |edges| =>
      if edges[e].Some? && Touches(edges[e].value, ix) then None else edges[e])
  }

  ghost function Unlinked(edges: Edges, byRelId: map<RelationshipId, nat>, ix: nat): map<RelationshipId, nat>
    requires forall r :: r in byRelId ==> byRelId[r] < |edges| && edges[byRelId[r]].Some?
  {
    map r | r in byRelId && !Touches(edges[byRelId[r]].value, ix) :: byRelId[r]
  }

  /** Writing an edge under its own id changes one link. */
  lemma LinksAfterSet(nodes: Nodes, edges: Edges, byRelId: map<RelationshipId, nat>, e: nat, edge: Edge)
    requires EdgesAgree(nodes, edges, byRelId) && e < |edges|
    requires Live(nodes, edge.source) && Live(nodes, edge.target)
    requires if edge.weight.id in byRelId then byRelId[edge.weight.id] == e else edges[e].None?
    ensures EdgesAgree(nodes, edges[e := Some(edge)], byRelId[edge.weight.id := e])
    ensures LinksOf(nodes, edges[e := Some(edge)], byRelId[edge.weight.id := e])
         == LinksOf(nodes, edges, byRelId)[edge.weight.id := LinkOf(nodes, edge)]
  {
  }

  lemma LinksGrow(nodes: Nodes, edges: Edges, byRelId: map<RelationshipId, nat>)
    requires EdgesAgree(nodes, edges, byRelId)
    ensures EdgesAgree(nodes, edges + [None], byRelId)
    ensures LinksOf(nodes, edges + [None], byRelId) == LinksOf(nodes, edges, byRelId)
  {
  }

  /** Cutting an edge and its id removes one link. */
  lemma LinksAfterCut(nodes: Nodes, edges: Edges, byRelId: map<RelationshipId, nat>, r: RelationshipId)
    requires EdgesAgree(nodes, edges, byRelId) && r in byRelId
    ensures byRelId[r] < |edges| && edges[byRelId[r]].Some? && edges[byRelId[r]].value.weight.id == r
    ensures Live(nodes, edges[byRelId[r]].value.source) && Live(nodes, edges[byRelId[r]].value.target)
    ensures EdgesAgree(nodes, edges[byRelId[r] := None], byRelId - {r})
    ensures LinksOf(nodes, edges, byRelId)[r] == LinkOf(nodes, edges[byRelId[r]].value)
    ensures LinksOf(nodes, edges[byRelId[r] := None], byRelId - {r}) == LinksOf(nodes, edges, byRelId) - {r}
  {
  }

  /** `left` is `edges` with some of the edges at `ix` cut; `incident` names those still there. */
  ghost predicate Cutting(edges: Edges, left: Edges, rels: map<RelationshipId, nat>, incident: set<RelationshipId>,
      ix: nat) {
    && |left| == |edges|
    && (forall e :: 0 <= e < |edges| ==>
          left[e] == edges[e] || (left[e].None? && edges[e].Some? && Touches(edges[e].value, ix)))
    && (forall r :: r in incident ==>
          r in rels && rels[r] < |left| && left[rels[r]].Some? && Touches(left[rels[r]].value, ix))
    && (forall e :: 0 <= e < |left| && left[e].Some? && Touches(left[e].value, ix) ==>
      left[e].value.weight.id in incident)
  }

  lemma CutOne(nodes: Nodes, edges: Edges, left: Edges, rels: map<RelationshipId, nat>, incident: set<RelationshipId>,
               ix: nat, r: RelationshipId)
    requires EdgesAgree(nodes, left, rels) && Cutting(edges, left, rels, incident, ix) && r in incident
    ensures Cutting(edges, left[rels[r] := None], rels - {r}, incident - {r}, ix)
    ensures left[rels[r]] == edges[rels[r]]
  {
    assert left[rels[r]].value.weight.id == r;
  }

  /** `rels` is `byRelId` less some relationships at `ix`. */
  ghost predicate Forgetting(edges: Edges, byRelId: map<RelationshipId, nat>, rels: map<RelationshipId, nat>, ix: nat) {
    && (forall r :: r in rels ==> r in byRelId && rels[r] == byRelId[r])
    && (forall r :: r in byRelId ==>
      byRelId[r] < |edges| && edges[byRelId[r]].Some? && (r !in rels ==> Touches(edges[byRelId[r]].value, ix)))
  }

  lemma ForgetOne(nodes: Nodes, edges: Edges, byRelId: map<RelationshipId, nat>, left: Edges,
      rels: map<RelationshipId, nat>,
                  incident: set<RelationshipId>, ix: nat, r: RelationshipId)
    requires EdgesAgree(nodes, left, rels) && Cutting(edges, left, rels, incident, ix) && r in incident
      && Forgetting(edges, byRelId, rels, ix)
    ensures Forgetting(edges, byRelId, rels - {r}, ix)
  {
    CutOne(nodes, edges, left, rels, incident, ix, r);
    hide EdgesAgree;
  }

  lemma ForgotAll(nodes: Nodes, edges: Edges, byRelId: map<RelationshipId, nat>, left: Edges,
      rels: map<RelationshipId, nat>, ix: nat)
    requires EdgesAgree(nodes, edges, byRelId) && EdgesAgree(nodes, left, rels)
    requires Cutting(edges, left, rels, {}, ix) && Forgetting(edges, byRelId, rels, ix)
    ensures left == Detached(edges, ix) && rels == Unlinked(edges, byRelId, ix)
  {
  }

  /** Forgets every relationship incident to a node, handing back 256 bytes for each. */
  method ForgetIncident(nodes: Nodes, edges: Edges, byRelId: map<RelationshipId, nat>, estBytes: nat, ix: nat)
    returns (rels: map<RelationshipId, nat>, bytes: nat)
    requires EdgesAgree(nodes, edges, byRelId) && estBytes >= Total(edges, EdgeBytes)
    ensures rels == Unlinked(edges, byRelId, ix)
    ensures EdgesAgree(nodes, Detached(edges, ix), rels)
    ensures bytes == estBytes - Total(edges, EdgeBytes) + Total(Detached(edges, ix), EdgeBytes)
  {
    var incident := set e: nat | e < |edges| && edges[e].Some?
      && Touches(edges[e].value, ix) :: edges[e].value.weight.id;
    rels, bytes := byRelId, estBytes;
    ghost var left := edges;
    assert Cutting(edges, left, rels, incident, ix) && Forgetting(edges, byRelId, rels, ix);
    while incident != {}
      invariant EdgesAgree(nodes, left, rels) && Cutting(edges, left, rels, incident, ix)
        && Forgetting(edges, byRelId, rels, ix)
      invariant bytes == estBytes - Total(edges, EdgeBytes) + Total(left, EdgeBytes)
      decreases incident
    {
      var r :| r in incident;
      assert r in rels && rels[r] < |left| && left[rels[r]].Some?;
      hide EdgesAgree, Cutting, Forgetting, Total;
      TotalUpdate(left, rels[r], None, EdgeBytes);
      LinksAfterCut(nodes, left, rels, r);
      CutOne(nodes, edges, left, rels, incident, ix, r);
      ForgetOne(nodes, edges, byRelId, left, rels, incident, ix, r);
      left := left[rels[r] := None];
      rels, bytes := rels - {r}, SatSub(bytes, EDGE_BYTES);
      incident := incident - {r};
    }
    ForgotAll(nodes, edges, byRelId, left, rels, ix);
  }

  lemma IdIsNode(nodes: Nodes, byId: map<MemoryId, nat>, id: MemoryId, w: nat)
    requires NodesAgree(nodes, byId) && id in byId && Live(nodes, w)
    ensures nodes[w].value.id == id <==> w == byId[id]
  {
  }

  lemma MemoriesAfterRemove(nodes: Nodes, byId: map<MemoryId, nat>, id: MemoryId)
    requires NodesAgree(nodes, byId) && id in byId
    ensures NodesAgree(nodes[byId[id] := None], byId - {id})
    ensures MemoriesOf(nodes[byId[id] := None], byId - {id}) == MemoriesOf(nodes, byId) - {id}
  {
  }

  /** A node that no edge touches can go. */
  lemma EdgesAfterNode(nodes: Nodes, edges: Edges, rels: map<RelationshipId, nat>, ix: nat)
    requires EdgesAgree(nodes, Detached(edges, ix), rels) && ix < |nodes|
    ensures EdgesAgree(nodes[ix := None], Detached(edges, ix), rels)
    ensures LinksOf(nodes[ix := None], Detached(edges, ix), rels) == LinksOf(nodes, Detached(edges, ix), rels)
  {
    var cut := nodes[ix := None];
    assert forall w: nat :: Live(nodes, w) && w != ix ==> Live(cut, w) && cut[w] == nodes[w];
  }

  lemma LinkSurvives(nodes: Nodes, edges: Edges, byId: map<MemoryId, nat>, byRelId: map<RelationshipId, nat>,
                     id: MemoryId, r: RelationshipId)
    requires NodesAgree(nodes, byId) && EdgesAgree(nodes, edges, byRelId) && id in byId && r in byRelId
    ensures r in Unlinked(edges, byRelId, byId[id]) <==>
      LinksOf(nodes, edges, byRelId)[r].from != id && LinksOf(nodes, edges, byRelId)[r].to != id
  {
    LinksAfterCut(nodes, edges, byRelId, r);
    IdIsNode(nodes, byId, id, edges[byRelId[r]].value.source);
    IdIsNode(nodes, byId, id, edges[byRelId[r]].value.target);
  }

  /** Detaching a node removes exactly the links that name its memory. */
  lemma LinksAfterRemove(nodes: Nodes, edges: Edges, byId: map<MemoryId, nat>, byRelId: map<RelationshipId, nat>,
                         rels: map<RelationshipId, nat>, id: MemoryId)
    requires NodesAgree(nodes, byId) && EdgesAgree(nodes, edges, byRelId) && id in byId
    requires rels == Unlinked(edges, byRelId, byId[id])
    requires EdgesAgree(nodes, Detached(edges, byId[id]), rels)
    ensures EdgesAgree(nodes[byId[id] := None], Detached(edges, byId[id]), rels)
    ensures var links := LinksOf(nodes, edges, byRelId);
      LinksOf(nodes[byId[id] := None], Detached(edges, byId[id]), rels)
        == map r | r in links && links[r].from != id && links[r].to != id :: links[r]
  {
    EdgesAfterNode(nodes, edges, rels, byId[id]);
    var links, left := LinksOf(nodes, edges, byRelId), Detached(edges, byId[id]);
    hide NodesAgree;
    forall r | r in byRelId
      ensures r in rels <==> links[r].from != id && links[r].to != id
    {
      LinkSurvives(nodes, edges, byId, byRelId, id, r);
    }
    forall r | r in rels
      ensures LinksOf(nodes, left, rels)[r] == links[r]
    {
      assert left[rels[r]] == edges[byRelId[r]];
    }
    hide NodesAgree, EdgesAgree, LinkOf;
  }

  /** An id no node carries is no link's endpoint. */
  lemma NothingToRemove(nodes: Nodes, edges: Edges, byId: map<MemoryId, nat>, byRelId: map<RelationshipId, nat>,
      id: MemoryId)
    requires NodesAgree(nodes, byId) && EdgesAgree(nodes, edges, byRelId) && id !in byId
    ensures MemoriesOf(nodes, byId) - {id} == MemoriesOf(nodes, byId)
    ensures var links := LinksOf(nodes, edges, byRelId); forall r :: r in links ==>
      links[r].from != id && links[r].to != id
  {
    var links := LinksOf(nodes, edges, byRelId);
    forall r | r in links ensures links[r].from != id && links[r].to != id {
      var e := edges[byRelId[r]].value;
      assert Live(nodes, e.source) && Live(nodes, e.target);
    }
  }

  /** Lists a memory under each of these entities in turn. */
  function ListUnder(byEntity: map<EntityId, seq<MemoryId>>, entities: seq<EntityId>, id: MemoryId)
    : map<EntityId, seq<MemoryId>>
  {
    if entities == [] then byEntity
    else
      var (before, e) := (ListUnder(byEntity, entities[..|entities| - 1], id), entities[|entities| - 1]);
      before[e := About(before, e) + [id]]
  }

  lemma {:induction false} ListUnderCounts(byEntity: map<EntityId, seq<MemoryId>>, entities: seq<EntityId>,
      id: MemoryId,
      e: EntityId, x: MemoryId)
    ensures multiset(About(ListUnder(byEntity, entities, id), e))[x] ==
      multiset(About(byEntity, e))[x] + if x == id then multiset(entities)[e] else 0
  {
    if entities != [] {
      var n := |entities| - 1;
      ListUnderCounts(byEntity, entities[..n], id, e, x);
      assert entities == entities[..n] + [entities[n]];
    }
  }

  lemma {:induction false} ListUnderKeepsNone(byEntity: map<EntityId, seq<MemoryId>>, entities: seq<EntityId>,
      id: MemoryId)
    requires forall e :: e in byEntity ==> byEntity[e] != []
    ensures forall e :: e in ListUnder(byEntity, entities, id) ==> ListUnder(byEntity, entities, id)[e] != []
  {
    if entities != [] { ListUnderKeepsNone(byEntity, entities[..|entities| - 1], id); }
  }

  /** A memory has been dropped from the lists of these entities and from no other. */
  ghost predicate DroppedUnder(before: map<EntityId, seq<MemoryId>>, after: map<EntityId, seq<MemoryId>>,
      entities: seq<EntityId>, id: MemoryId)
  {
    forall e: EntityId :: About(after, e) == if e in entities then Without(About(before, e), id) else About(before, e)
  }

  /** Dropping it from one more list; an emptied list goes. */
  lemma {:induction false} DropOne(before: map<EntityId, seq<MemoryId>>, now: map<EntityId, seq<MemoryId>>,
      entities: seq<EntityId>,
      id: MemoryId, e: EntityId)
    requires DroppedUnder(before, now, entities, id)
    ensures e !in now ==> DroppedUnder(before, now, entities + [e], id)
    ensures e in now ==>
      var rest := Without(now[e], id);
      DroppedUnder(before, if rest == [] then now - {e} else now[e := rest], entities + [e], id)
  {
    WithoutAbsent(Without(About(before, e), id), id);
    assert About(now, e) == if e in entities then Without(About(before, e), id) else About(before, e);
    assert Without<MemoryId>([], id) == [];
  }
}
