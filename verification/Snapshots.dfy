/** `GraphSnapshot`: one org's graph with the indexes and the search arena kept beside it. */
module Snapshots {
  import opened Common
  import opened PlainGraphs
  import opened Arena
  import opened Indexes

  class GraphSnapshot {
    var nodes: Nodes
    var edges: Edges
    var byId: map<MemoryId, nat>
    var byEntity: map<EntityId, seq<MemoryId>>
    var byRelId: map<RelationshipId, nat>
    var searchArena: string
    var searchOffsets: seq<nat>
    var searchNodes: seq<nat>
    var searchLiveBytes: nat
    var lastLocalLsn: nat
    var lastBackendLsn: nat
    var estBytes: nat
    ghost var slotKeys: seq<Option<string>>
    ghost var slotOf: map<nat, nat>

    /** The entity lists, the arena and its byte count agree with the node vector `ns`. */
    ghost predicate Indexed(ns: Nodes)
      reads this
    {
      && EntitiesAgree(ns, byEntity)
      && Represents(searchArena, searchOffsets, slotKeys)
      && SlotsAgree(ns, searchNodes, slotKeys, slotOf)
      && searchLiveBytes == Total(ns, KeyBytes)
    }

    ghost predicate Valid()
      reads this
    {
      && NodesAgree(nodes, byId)
      && EdgesAgree(nodes, edges, byRelId)
      && Indexed(nodes)
      && estBytes == Total(nodes, Estimate) + Total(edges, EdgeBytes)
    }

    /** The graph this snapshot stands for. */
    ghost function Contents(): Graph
      requires Valid()
      reads this
    {
      Graph(MemoriesOf(nodes, byId), LinksOf(nodes, edges, byRelId), lastLocalLsn, lastBackendLsn)
    }

    constructor Empty()
      ensures Valid() && Contents() == EMPTY
    {
      nodes, edges := [], [];
      byId, byEntity, byRelId := map[], map[], map[];
      searchArena, searchOffsets, searchNodes, searchLiveBytes := "", [], [], 0;
      lastLocalLsn, lastBackendLsn, estBytes := 0, 0, 0;
      slotKeys, slotOf := [], map[];
    }

    /** Field-by-field copy. */
    constructor Clone(src: GraphSnapshot)
      requires src.Valid()
      ensures Valid() && Contents() == src.Contents()
      ensures estBytes == src.estBytes
    {
      nodes, edges := src.nodes, src.edges;
      byId, byEntity, byRelId := src.byId, src.byEntity, src.byRelId;
      searchArena, searchOffsets, searchNodes := src.searchArena, src.searchOffsets, src.searchNodes;
      searchLiveBytes := src.searchLiveBytes;
      lastLocalLsn, lastBackendLsn, estBytes := src.lastLocalLsn, src.lastBackendLsn, src.estBytes;
      slotKeys, slotOf := src.slotKeys, src.slotOf;
    }

    /** Drops a memory from the entity lists it appears in. */
    method DropFromEntities(m: Memory)
      modifies `byEntity
      requires forall e :: e in byEntity ==> byEntity[e] != []
      requires forall e: EntityId :: e !in m.entities ==> m.id !in About(byEntity, e)
      ensures forall e :: e in byEntity ==> byEntity[e] != []
      ensures forall e: EntityId :: About(byEntity, e) == Without(About(old(byEntity), e), m.id)
    {
      ghost var before := byEntity;
      for k := 0 to |m.entities|
        invariant forall e :: e in byEntity ==> byEntity[e] != []
        invariant DroppedUnder(before, byEntity, m.entities[..k], m.id)
      {
        var e := m.entities[k];
        DropOne(before, byEntity, m.entities[..k], m.id, e);
        if e in byEntity {
          var rest := Without(byEntity[e], m.id);
          byEntity := if rest == [] then byEntity - {e} else byEntity[e := rest];
        }
        assert m.entities[..k + 1] == m.entities[..k] + [e];
        hide DroppedUnder, About;
      }
      assert m.entities[..|m.entities|] == m.entities;
      forall e: EntityId
        ensures About(byEntity, e) == Without(About(before, e), m.id)
      {
        if e !in m.entities { WithoutAbsent(About(before, e), m.id); }
      }
    }

    /** Appends a memory to the list of each entity it names. */
    method AddToEntities(m: Memory)
      modifies `byEntity
      requires forall e :: e in byEntity ==> byEntity[e] != []
      ensures forall e :: e in byEntity ==> byEntity[e] != []
      ensures forall e: EntityId, x: MemoryId ::
        multiset(About(byEntity, e))[x] ==
          multiset(About(old(byEntity), e))[x] + (if x == m.id then multiset(m.entities)[e] else 0)
    {
      ghost var before := byEntity;
      for k := 0 to |m.entities|
        invariant byEntity == ListUnder(before, m.entities[..k], m.id)
      {
        var e := m.entities[k];
        byEntity := byEntity[e := About(byEntity, e) + [m.id]];
        assert m.entities[..k + 1][..k] == m.entities[..k];
      }
      assert m.entities[..|m.entities|] == m.entities;
      hide ListUnder, About;
      ListUnderKeepsNone(before, m.entities, m.id);
      forall e: EntityId, x: MemoryId
        ensures multiset(About(byEntity, e))[x] ==
          multiset(About(before, e))[x] + (if x == m.id then multiset(m.entities)[e] else 0)
      {
        ListUnderCounts(before, m.entities, m.id, e, x);
      }
    }

    /** Blanks every arena slot of a node. */
    method BlankSlotsOf(ix: nat)
      modifies `searchArena, `slotKeys
      requires Represents(searchArena, searchOffsets, slotKeys) && |searchNodes| == |searchOffsets|
      ensures Represents(searchArena, searchOffsets, slotKeys) && |slotKeys| == |old(slotKeys)|
      ensures forall i :: 0 <= i < |slotKeys| ==>
        slotKeys[i] == if searchNodes[i] == ix then None else old(slotKeys)[i]
    {
      ghost var before := slotKeys;
      for slot := 0 to |searchNodes|
        invariant Represents(searchArena, searchOffsets, slotKeys)
        invariant forall i :: 0 <= i < |slotKeys| ==>
          slotKeys[i] == if i < slot && searchNodes[i] == ix then None else before[i]
      {
        if searchNodes[slot] == ix {
          var from, to := searchOffsets[slot], SlotEnd(searchArena, searchOffsets, slot);
          BlankSlot(searchArena, searchOffsets, slotKeys, slot);
          searchArena := BlankRange(searchArena, from, to);
          slotKeys := slotKeys[slot := None];
        }
      }
    }

    method RemoveEntityIndexes(ix: nat, ghost ids: map<MemoryId, nat>)
      modifies `byEntity
      requires Live(nodes, ix) && EntitiesAgree(nodes, byEntity) && NodesAgree(nodes, ids)
      ensures EntitiesAgree(nodes[ix := None], byEntity)
    {
      NotListedElsewhere(nodes, byEntity, ix);
      DropFromEntities(nodes[ix].value);
      EntitiesAfterDrop(nodes, ids, old(byEntity), byEntity, ix);
    }

    method RemoveSearchKey(ix: nat)
      modifies `searchArena, `searchLiveBytes, `slotKeys, `slotOf
      requires Live(nodes, ix) && searchLiveBytes == Total(nodes, KeyBytes)
      requires Represents(searchArena, searchOffsets, slotKeys) && SlotsAgree(nodes, searchNodes, slotKeys, slotOf)
      ensures searchLiveBytes == Total(nodes[ix := None], KeyBytes)
      ensures Represents(searchArena, searchOffsets, slotKeys)
      ensures SlotsAgree(nodes[ix := None], searchNodes, slotKeys, slotOf)
    {
      TotalUpdate(nodes, ix, None, KeyBytes);
      searchLiveBytes := SatSub(searchLiveBytes, |Key(nodes[ix].value)| + 1);
      BlankSlotsOf(ix);
      SlotsAfterDrop(nodes, searchNodes, old(slotKeys), slotKeys, slotOf, ix);
      slotOf := slotOf - {ix};
    }

    method RemoveMemoryIndexes(ix: nat, ghost ids: map<MemoryId, nat>)
      modifies `byEntity, `searchArena, `searchLiveBytes, `slotKeys, `slotOf
      requires Live(nodes, ix) && Indexed(nodes) && NodesAgree(nodes, ids)
      ensures Indexed(nodes[ix := None])
    {
      RemoveEntityIndexes(ix, ids);
      RemoveSearchKey(ix);
    }

    method IndexMemory(m: Memory, ix: nat, ghost ns: Nodes)
      modifies `byEntity, `searchArena, `searchOffsets, `searchNodes, `searchLiveBytes, `slotKeys, `slotOf
      requires Indexed(ns) && ix < |ns| && ns[ix].None? && !Known(ns, m.id)
      ensures Indexed(ns[ix := Some(m)])
    {
      AddToEntities(m);
      EntitiesAfterAdd(ns, old(byEntity), byEntity, ix, m);
      AppendKey(searchArena, searchOffsets, slotKeys, Key(m));
      SlotsAfterAdd(ns, searchNodes, slotKeys, slotOf, ix, m);
      TotalUpdate(ns, ix, Some(m), KeyBytes);
      searchOffsets := searchOffsets + [|searchArena|];
      searchArena := searchArena + Key(m) + [NL];
      searchNodes := searchNodes + [ix];
      searchLiveBytes := searchLiveBytes + |Key(m)| + 1;
      slotOf := slotOf[ix := |slotKeys|];
      slotKeys := slotKeys + [Some(Key(m))];
    }

    /** Repacks the arena once garbage outweighs what is live. */
    method CompactSearchIndexIfNeeded()
      modifies `searchArena, `searchOffsets, `searchNodes, `slotKeys, `slotOf
      requires Indexed(nodes)
      ensures Indexed(nodes)
      ensures |searchArena| <= Max(2 * searchLiveBytes, searchLiveBytes + MIN_COMPACTION_GARBAGE - 1)
    {
      var garbage := SatSub(|searchArena|, searchLiveBytes);
      if garbage < MIN_COMPACTION_GARBAGE || |searchArena| <= searchLiveBytes * 2 {
        return;
      }
      var arena, offsets, owners, keys, owned := PackKeys(nodes);
      searchArena, searchOffsets, searchNodes := arena, offsets, owners;
      slotKeys, slotOf := keys, owned;
      assert |searchArena| == searchLiveBytes;
    }

    /** Places a memory in a vacant slot of the node vector, or at its end when none is vacant. */
    method AddNode(m: Memory) returns (ix: nat, ghost room: Nodes)
      modifies `nodes
      ensures ix < |room| && room[ix].None? && nodes == room[ix := Some(m)]
      ensures room == old(nodes) || room == old(nodes) + [None]
    {
      if k: nat :| k < |nodes| && nodes[k].None? {
        ix, room := k, nodes;
      } else {
        ix, room := |nodes|, nodes + [None];
        nodes := nodes + [None];
      }
      nodes := nodes[ix := Some(m)];
    }

    method ReplaceMemory(m: Memory) returns (ix: nat)
      modifies this
      requires Valid() && m.id in byId
      ensures Valid() && Contents() == Apply(old(Contents()), UpsertMemory(m))
      ensures Live(nodes, ix) && nodes[ix] == Some(m)
    {
      hide NodesAgree, EdgesAgree, EntitiesAgree, SlotsAgree, Represents, Total, Key, Estimate, MemoriesOf, LinksOf,
        Known;
      NodeOf(nodes, byId, m.id);
      ix := byId[m.id];
      MemoriesAfterPut(nodes, nodes, byId, ix, m);
      LinksAfterPut(nodes, nodes, edges, byRelId, ix, m);
      assert byId[m.id := ix] == byId;
      TotalUpdate(nodes, ix, None, Estimate);
      TotalUpdate(nodes, ix, Some(m), Estimate);
      estBytes := SatSub(estBytes, Estimate(nodes[ix].value)) + Estimate(m);
      RemoveMemoryIndexes(ix, byId);
      IndexMemory(m, ix, nodes[ix := None]);
      assert nodes[ix := None][ix := Some(m)] == nodes[ix := Some(m)];
      nodes := nodes[ix := Some(m)];
    }

    method AddMemory(m: Memory) returns (ix: nat)
      modifies this
      requires Valid() && m.id !in byId
      ensures Valid() && Contents() == Apply(old(Contents()), UpsertMemory(m))
      ensures Live(nodes, ix) && nodes[ix] == Some(m)
    {
      hide NodesAgree, EdgesAgree, EntitiesAgree, SlotsAgree, Represents, Total, Key, Estimate, MemoriesOf, LinksOf,
        Known;
      ghost var room;
      ix, room := AddNode(m);
      NodeOf(old(nodes), byId, m.id);
      MemoriesAfterPut(old(nodes), room, byId, ix, m);
      LinksAfterPut(old(nodes), room, edges, byRelId, ix, m);
      IndexedGrows(old(nodes), room);
      TotalUpdate(room, ix, Some(m), Estimate);
      IndexMemory(m, ix, room);
      estBytes := estBytes + Estimate(m);
      byId := byId[m.id := ix];
    }

    /** Upsert: a known id replaces its node's memory in place, a new id takes a free node. */
    method InsertMemory(m: Memory) returns (ix: nat)
      modifies this
      requires Valid()
      ensures Valid() && Contents() == Apply(old(Contents()), UpsertMemory(m))
      ensures Live(nodes, ix) && nodes[ix] == Some(m)
      ensures |searchArena| <= Max(2 * searchLiveBytes, searchLiveBytes + MIN_COMPACTION_GARBAGE - 1)
    {
      hide NodesAgree, EdgesAgree, EntitiesAgree, SlotsAgree, Represents, Total, Key, Estimate, MemoriesOf, LinksOf,
        Known;
      if m.id in byId {
        ix := ReplaceMemory(m);
      } else {
        ix := AddMemory(m);
      }
      CompactSearchIndexIfNeeded();
    }

    /** An unused slot at the end of the node vector disturbs no index. */
    lemma {:induction false} IndexedGrows(before: Nodes, room: Nodes)
      requires Indexed(before) && (room == before || room == before + [None])
      ensures Indexed(room)
      ensures Total(room, Estimate) == Total(before, Estimate)
    {
      if room != before {
        TotalAppend(before, None, KeyBytes);
        TotalAppend(before, None, Estimate);
        SlotsGrow(before, searchNodes, slotKeys, slotOf);
        EntitiesGrow(before, byEntity);
      }
    }

    /** Removes a memory, its index entries and every relationship incident to it. */
    method RemoveMemory(id: MemoryId)
      modifies this
      requires Valid()
      ensures Valid() && Contents() == Apply(old(Contents()), DeleteMemory(id))
    {
      if id in byId {
        DropMemory(id);
      } else {
        UnknownMemory(id);
      }
    }

    lemma UnknownMemory(id: MemoryId)
      requires Valid() && id !in byId
      ensures Apply(Contents(), DeleteMemory(id)) == Contents()
    {
      NothingToRemove(nodes, edges, byId, byRelId, id);
      hide NodesAgree, EdgesAgree, EntitiesAgree, SlotsAgree, Represents, Total, MemoriesOf, LinksOf;
      var g := Contents();
      assert Apply(g, DeleteMemory(id)).links == g.links;
    }

    method DropMemory(id: MemoryId)
      modifies this
      requires Valid() && id in byId
      ensures Valid() && Contents() == Apply(old(Contents()), DeleteMemory(id))
    {
      hide NodesAgree, EdgesAgree, EntitiesAgree, SlotsAgree, Represents, Total, Key, Estimate, MemoriesOf, LinksOf,
        Known, Detached, Unlinked;
      NodeOf(nodes, byId, id);
      var ix := byId[id];
      TotalUpdate(nodes, ix, None, Estimate);
      estBytes := SatSub(estBytes, Estimate(nodes[ix].value));
      RemoveMemoryIndexes(ix, byId);
      var rels, bytes := ForgetIncident(nodes, edges, byRelId, estBytes, ix);
      MemoriesAfterRemove(nodes, byId, id);
      LinksAfterRemove(nodes, edges, byId, byRelId, rels, id);
      byId, byRelId, estBytes := byId - {id}, rels, bytes;
      nodes, edges := nodes[ix := None], Detached(edges, ix);
    }

    /** Upsert: a known id replaces the weight of its edge; a new id joins its two live endpoints. */
    method InsertRelationship(r: Relationship)
      modifies `edges, `byRelId, `estBytes
      requires Valid()
      ensures Valid() && Contents() == Apply(old(Contents()), UpsertRelationship(r))
    {
      hide NodesAgree, EdgesAgree, EntitiesAgree, SlotsAgree, Represents, Total;
      if r.from in byId && r.to in byId {
        if r.id in byRelId {
          LinksAfterCut(nodes, edges, byRelId, r.id);
          var e := byRelId[r.id];
          var edge := edges[e].value.(weight := r);
          TotalUpdate(edges, e, None, EdgeBytes);
          TotalUpdate(edges, e, Some(edge), EdgeBytes);
          LinksAfterSet(nodes, edges, byRelId, e, edge);
          assert byRelId[r.id := e] == byRelId;
          estBytes := SatSub(estBytes, EDGE_BYTES) + EDGE_BYTES;
          edges := edges[e := Some(edge)];
        } else {
          NodeOf(nodes, byId, r.from);
          NodeOf(nodes, byId, r.to);
          AddEdge(Edge(byId[r.from], byId[r.to], r));
        }
      }
    }

    /** Places an edge in a vacant slot of the edge vector, or at its end when none is vacant. */
    method AddEdge(edge: Edge)
      modifies `edges, `byRelId, `estBytes
      requires Valid() && Live(nodes, edge.source) && Live(nodes, edge.target) && edge.weight.id !in byRelId
      ensures Valid()
      ensures Contents() == old(Contents()).(links := old(Contents()).links[edge.weight.id := LinkOf(nodes, edge)])
    {
      hide NodesAgree, EdgesAgree, EntitiesAgree, SlotsAgree, Represents, Total, MemoriesOf, LinksOf;
      var e: nat;
      if k: nat :| k < |edges| && edges[k].None? {
        e := k;
      } else {
        TotalAppend(edges, None, EdgeBytes);
        LinksGrow(nodes, edges, byRelId);
        e := |edges|;
        edges := edges + [None];
      }
      TotalUpdate(edges, e, Some(edge), EdgeBytes);
      LinksAfterSet(nodes, edges, byRelId, e, edge);
      edges := edges[e := Some(edge)];
      byRelId := byRelId[edge.weight.id := e];
      estBytes := estBytes + EDGE_BYTES;
    }

    method RemoveRelationship(id: RelationshipId)
      modifies `edges, `byRelId, `estBytes
      requires Valid()
      ensures Valid() && Contents() == Apply(old(Contents()), DeleteRelationship(id))
    {
      hide NodesAgree, EdgesAgree, EntitiesAgree, SlotsAgree, Represents, Total;
      if id in byRelId {
        LinksAfterCut(nodes, edges, byRelId, id);
        var e := byRelId[id];
        TotalUpdate(edges, e, None, EdgeBytes);
        edges := edges[e := None];
        byRelId := byRelId - {id};
        estBytes := SatSub(estBytes, EDGE_BYTES);
      }
    }

    /** One journal operation, in place. */
    method ApplyDelta(delta: Delta)
      modifies this
      requires Valid()
      ensures Valid() && Contents() == Apply(old(Contents()), delta)
    {
      hide NodesAgree, EdgesAgree, EntitiesAgree, SlotsAgree, Represents, Total, MemoriesOf, LinksOf;
      match delta {
        case UpsertMemory(m) => var _ := InsertMemory(m);
        case DeleteMemory(id) => RemoveMemory(id);
        case UpsertRelationship(r) => InsertRelationship(r);
        case DeleteRelationship(id) => RemoveRelationship(id);
        case AdvanceBackendLsn(lsn) => lastBackendLsn := Max(lastBackendLsn, lsn);
        case AdvanceLocalLsn(lsn) => lastLocalLsn := Max(lastLocalLsn, lsn);
      }
    }
  }
}
