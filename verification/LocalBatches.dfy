/** What a local batch does to the published graph, told from its rows and the graph before it. */
module LocalBatches {
  import opened Common
  import opened PlainGraphs
  import opened Slots

  // ----- the effect, id by id

  ghost predicate Named(ms: seq<Memory>, id: MemoryId) { exists i :: 0 <= i < |ms| && ms[i].id == id }

  /** The last row of this id. */
  ghost predicate LastRow(ms: seq<Memory>, i: nat, id: MemoryId) {
    i < |ms| && ms[i].id == id && forall j :: i < j < |ms| ==> ms[j].id != id
  }

  /** A memory the batch names is its last row of that id; any other stays as it was. */
  ghost predicate MemoryWritten(g: Graph, h: Graph, ms: seq<Memory>, id: MemoryId) {
    if Named(ms, id) then id in h.memories && exists i: nat :: LastRow(ms, i, id) && h.memories[id] == ms[i]
    else (id in h.memories <==> id in g.memories) && (id in g.memories ==> h.memories[id] == g.memories[id])
  }

  /** A row of this id, with both endpoints among the memories. */
  ghost predicate Joins(live: set<MemoryId>, rs: seq<Relationship>, i: nat, id: RelationshipId) {
    i < |rs| && rs[i].id == id && rs[i].from in live && rs[i].to in live
  }

  ghost predicate Joined(live: set<MemoryId>, rs: seq<Relationship>, id: RelationshipId) {
    exists i: nat :: Joins(live, rs, i, id)
  }

  ghost predicate LastJoin(live: set<MemoryId>, rs: seq<Relationship>, i: nat, id: RelationshipId) {
    Joins(live, rs, i, id) && forall j: nat :: i < j ==> !Joins(live, rs, j, id)
  }

  ghost predicate FirstJoin(live: set<MemoryId>, rs: seq<Relationship>, i: nat, id: RelationshipId) {
    Joins(live, rs, i, id) && forall j: nat :: j < i ==> !Joins(live, rs, j, id)
  }

  /** A row whose endpoints are live by then is a link afterwards, with the weight of its last such row; a new link
      has the endpoints of its first, a known one keeps its own. Any other link stays as it was. */
  ghost predicate LinkWritten(g: Graph, h: Graph, rs: seq<Relationship>, id: RelationshipId) {
    var live := h.memories.Keys;
    if Joined(live, rs, id) then
      && id in h.links
      && (exists i: nat :: LastJoin(live, rs, i, id) && h.links[id].weight == rs[i])
      && (if id in g.links then h.links[id].from == g.links[id].from && h.links[id].to == g.links[id].to
          else exists i: nat ::
            FirstJoin(live, rs, i, id) && h.links[id].from == rs[i].from && h.links[id].to == rs[i].to)
    else (id in h.links <==> id in g.links) && (id in g.links ==> h.links[id] == g.links[id])
  }

  ghost predicate BatchWritten(g: Graph, h: Graph, ms: seq<Memory>, rs: seq<Relationship>, lsn: nat) {
    && (forall id :: MemoryWritten(g, h, ms, id)) && (forall id :: LinkWritten(g, h, rs, id))
    && h.localLsn == (if lsn > g.localLsn then lsn else g.localLsn) && h.backendLsn == g.backendLsn
  }

  // ----- the deltas have that effect

  function Upserts(ms: seq<Memory>): (r: seq<Delta>)
    ensures |r| == |ms|
  {
    seq(|ms|, i requires 0 <= i < |ms| => UpsertMemory(ms[i]))
  }

  function Linkings(rs: seq<Relationship>): (r: seq<Delta>)
    ensures |r| == |rs|
  {
    seq(|rs|, i requires 0 <= i < |rs| => UpsertRelationship(rs[i]))
  }

  lemma {:induction false} UpsertsWrite(g: Graph, ms: seq<Memory>, id: MemoryId)
    ensures var h := ApplyAll(g, Upserts(ms));
      && MemoryWritten(g, h, ms, id) && h.links == g.links && h.localLsn == g.localLsn && h.backendLsn == g.backendLsn
  {
    if ms != [] {
      var (before, m) := (ms[..|ms| - 1], ms[|ms| - 1]);
      UpsertsWrite(g, before, id);
      assert Upserts(ms) == Upserts(before) + [UpsertMemory(m)];
      ApplyLast(g, Upserts(before), UpsertMemory(m));
      hide ApplyAll, Upserts, MemoryWritten;
      OneMoreMemory(g, ApplyAll(g, Upserts(before)), before, m, id);
      assert before + [m] == ms;
    }
  }

  lemma OneMoreMemory(g: Graph, h: Graph, ms: seq<Memory>, m: Memory, id: MemoryId)
    requires MemoryWritten(g, h, ms, id)
    ensures MemoryWritten(g, h.(memories := h.memories[m.id := m]), ms + [m], id)
  {
    var all := ms + [m];
    if m.id == id {
      assert all[|ms|] == m && LastRow(all, |ms|, id);
    } else if Named(ms, id) {
      var i: nat :| LastRow(ms, i, id) && h.memories[id] == ms[i];
      assert all[i] == ms[i] && LastRow(all, i, id);
    } else {
      assert !Named(all, id);
    }
  }

  lemma {:induction false} LinkingsWrite(g: Graph, rs: seq<Relationship>, id: RelationshipId)
    ensures var h := ApplyAll(g, Linkings(rs));
      && LinkWritten(g, h, rs, id)
      && h.memories == g.memories && h.localLsn == g.localLsn && h.backendLsn == g.backendLsn
  {
    if rs == [] {
    } else {
      var (before, r) := (rs[..|rs| - 1], rs[|rs| - 1]);
      LinkingsWrite(g, before, id);
      assert Linkings(rs) == Linkings(before) + [UpsertRelationship(r)];
      ApplyLast(g, Linkings(before), UpsertRelationship(r));
      hide ApplyAll, Linkings, LinkWritten;
      OneMoreLink(g, ApplyAll(g, Linkings(before)), before, r, id);
      assert before + [r] == rs;
    }
  }

  lemma OneMoreLink(g: Graph, h: Graph, rs: seq<Relationship>, r: Relationship, id: RelationshipId)
    requires LinkWritten(g, h, rs, id)
    ensures LinkWritten(g, InsertRelationship(h, r), rs + [r], id)
  {
    var (live, all) := (h.memories.Keys, rs + [r]);
    assert all[|rs|] == r;
    assert forall i: nat :: i < |rs| ==> (Joins(live, all, i, id) <==> Joins(live, rs, i, id));
    hide Joins;
    LaterJoins(live, rs, r, id);
    if Joined(live, rs, id) {
      var i: nat :| LastJoin(live, rs, i, id) && h.links[id].weight == rs[i];
    }
  }

  lemma LaterJoins(live: set<MemoryId>, rs: seq<Relationship>, r: Relationship, id: RelationshipId)
    ensures var all := rs + [r];
      && (Joins(live, all, |rs|, id) ==> LastJoin(live, all, |rs|, id) && Joined(live, all, id))
      && (Joins(live, all, |rs|, id) && !Joined(live, rs, id) ==> FirstJoin(live, all, |rs|, id))
      && (forall i: nat :: FirstJoin(live, rs, i, id) ==> FirstJoin(live, all, i, id) && Joined(live, all, id))
      && (forall i: nat :: LastJoin(live, rs, i, id) && !Joins(live, all, |rs|, id) ==> LastJoin(live, all, i, id))
      && (Joined(live, all, id) <==> Joined(live, rs, id) || Joins(live, all, |rs|, id))
  {
    var all := rs + [r];
    forall i: nat ensures Joins(live, all, i, id) <==>
      Joins(live, rs, i, id) || (i == |rs| && Joins(live, all, i, id)) {
      if i < |rs| { assert all[i] == rs[i]; }
    }
    assert forall i: nat :: Joins(live, rs, i, id) ==> i < |rs|;
    hide Joins;
  }

  /** All of a batch's deltas, one after the other. */
  lemma {:induction false} BatchWrites(g: Graph, ms: seq<Memory>, rs: seq<Relationship>, lsn: nat)
    ensures BatchWritten(g, ApplyAll(g, LocalDelta(ms, rs, lsn)), ms, rs, lsn)
  {
    var (a, b) := (Upserts(ms), Linkings(rs));
    assert LocalDelta(ms, rs, lsn) == a + b + [AdvanceLocalLsn(lsn)];
    hide LocalDelta, Upserts, Linkings, ApplyAll;
    ApplyLast(g, a + b, AdvanceLocalLsn(lsn));
    ApplyAllConcat(g, a, b);
    var (m, h) := (ApplyAll(g, a), ApplyAll(g, a + b));
    UpsertsWrite(g, ms, 0);
    LinkingsWrite(m, rs, 0);
    forall id ensures MemoryWritten(g, Apply(h, AdvanceLocalLsn(lsn)), ms, id) {
      UpsertsWrite(g, ms, id);
    }
    forall id ensures LinkWritten(g, Apply(h, AdvanceLocalLsn(lsn)), rs, id) {
      LinkingsWrite(m, rs, id);
    }
  }

  // ----- and the protocol publishes it

  /** Until it publishes, the writer stays with the delta it began, and what is published stays. */
  lemma {:induction false} StaysUnderway(s: State, steps: seq<Step>, delta: seq<Delta>)
    requires Inv(s) && Underway(s.writer) == Some(delta) && forall i :: 0 <= i < |steps| ==> !steps[i].Publish?
    ensures var t := Run(s, steps);
      && Inv(t) && Underway(t.writer) == Some(delta) && t.base == s.base && t.published == s.published
    decreases |steps|
  {
    if steps != [] {
      var t := if Enabled(s, steps[0]) then Next(s, steps[0]) else s;
      if Enabled(s, steps[0]) {
        NextKeepsInv(s, steps[0]);
        StepStaysUnderway(s, steps[0], delta);
      }
      hide Inv, Next, Enabled;
      StaysUnderway(t, steps[1..], delta);
    }
  }

  lemma StepStaysUnderway(s: State, step: Step, delta: seq<Delta>)
    requires Enabled(s, step) && Underway(s.writer) == Some(delta) && !step.Publish?
    ensures var t := Next(s, step);
      Underway(t.writer) == Some(delta) && t.base == s.base && t.published == s.published
  {
    hide DeltasFrom, Apply;
  }

  lemma BeginsLocal(s: State, at: Buffer, ms: seq<Memory>, rs: seq<Relationship>, lsn: nat)
    requires Enabled(s, BeginLocal(at, ms, rs, lsn)) && !NothingLocal(s, ms, rs, lsn)
    ensures var t := Next(s, BeginLocal(at, ms, rs, lsn));
      Underway(t.writer) == Some(LocalDelta(ms, rs, lsn)) && t.base == s.base && t.published == s.published
  {
    hide LocalDelta, FirstFree;
  }

  /** Publishing what was underway: the graph the delta leads to from the one published before. */
  lemma {:induction false} PublishesUnderway(t: State, delta: seq<Delta>)
    requires Inv(t) && Enabled(t, Publish) && Underway(t.writer) == Some(delta)
    ensures var u := Next(t, Publish);
      && Inv(u) && u.current in u.heap
      && u.heap[u.current] == ApplyAll(After(t.base, t.published, |t.published|), delta)
  {
    NextKeepsInv(t, Publish);
    FoldStep(t.base, t.published, delta);
    hide After, JournalCovers, TrimJournal, Trim, Oldest, QueuesOk, JournalTight, Replay, ApplyAll;
  }

  /** However readers interleave and whichever buffer is used: the graph published after a local batch is the graph
      published before it with exactly the batch's rows written. A batch not worth publishing changes nothing and
      would write nothing. */
  lemma {:induction false} LocalBatchIsPublished(s: State, at: Buffer, ms: seq<Memory>, rs: seq<Relationship>,
      lsn: nat, steps: seq<Step>)
    requires Inv(s) && Enabled(s, BeginLocal(at, ms, rs, lsn))
    requires forall i :: 0 <= i < |steps| ==> !steps[i].Publish?
    ensures var (g, begun) := (s.heap[s.current], Next(s, BeginLocal(at, ms, rs, lsn)));
      if NothingLocal(s, ms, rs, lsn) then begun == s && BatchWritten(g, g, ms, rs, lsn)
      else
        var t := Run(begun, steps);
        Enabled(t, Publish) ==>
          var u := Next(t, Publish);
          u.current in u.heap && BatchWritten(g, u.heap[u.current], ms, rs, lsn)
  {
    var g := s.heap[s.current];
    BatchWrites(g, ms, rs, lsn);
    if NothingLocal(s, ms, rs, lsn) {
      SkippedLocalIsNoOp(s, ms, rs, lsn);
    } else {
      BeginsLocal(s, at, ms, rs, lsn);
      NextKeepsInv(s, BeginLocal(at, ms, rs, lsn));
      assert g == After(s.base, s.published, |s.published|);
      var begun := Next(s, BeginLocal(at, ms, rs, lsn));
      hide Inv, Next, Enabled, BatchWritten, LocalDelta, After, ApplyAll, NothingLocal;
      StaysUnderway(begun, steps, LocalDelta(ms, rs, lsn));
      if Enabled(Run(begun, steps), Publish) { PublishesUnderway(Run(begun, steps), LocalDelta(ms, rs, lsn)); }
    }
  }
}
