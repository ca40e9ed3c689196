/** `split_unit`: one unit becomes batches that never part a relationship from its endpoints. This module
    is the reference: components by root, packed greedily in root order. `Splitting` computes it. */
module Splitter {
  import opened Common
  import opened Sorting
  import opened Keys
  import opened Grouping
  import UnionFind

  const MAX_MEMORIES_PER_BATCH: nat := 256
  const MAX_EDGES_PER_BATCH: nat := 64

  datatype MemoryDraft = MemoryDraft(draftKey: string, body: string, externalKey: Option<string>)

  datatype RelationshipDraft = RelationshipDraft(from: string, to: string, kind: string, body: string)

  datatype BatchUnit = BatchUnit(
    memories: seq<MemoryDraft>,
    relationships: seq<RelationshipDraft>,
    snapshot: Option<string>)

  datatype Batch = Batch(index: nat, memories: seq<MemoryDraft>, relationships: seq<RelationshipDraft>)

  datatype Bound = MaxMemories | MaxEdges | MaxBytes

  datatype SdkError = InvalidUnit | Unsplittable(draftKeys: seq<string>, bound: Bound)

  /** Encoded lengths, which the wire format decides: of a lone component, and of an emitted batch. */
  datatype Sizes = Sizes(
    component: (seq<MemoryDraft>, seq<RelationshipDraft>, nat) -> nat,
    batch: Batch -> nat)

  datatype Component = Component(memories: seq<MemoryDraft>, relationships: seq<RelationshipDraft>)

  // ----- validation

  function DraftKeys(ms: seq<MemoryDraft>): (r: seq<string>)
    ensures |r| == |ms| && forall i :: 0 <= i < |ms| ==> r[i] == ms[i].draftKey
  {
    seq(|ms|, i requires 0 <= i < |ms| => ms[i].draftKey)
  }

  ghost predicate ValidUnit(unit: BatchUnit) {
    && Distinct(DraftKeys(unit.memories))
    && (forall i :: 0 <= i < |unit.relationships| ==>
          unit.relationships[i].from in DraftKeys(unit.memories)
            && unit.relationships[i].to in DraftKeys(unit.memories))
    && (unit.snapshot.Some? ==> forall i :: 0 <= i < |unit.memories| ==> unit.memories[i].externalKey.Some?)
  }

  // ----- components

  function KeySet(unit: BatchUnit): set<string> {
    set k | k in DraftKeys(unit.memories)
  }

  function EdgesOf(rs: seq<RelationshipDraft>): (r: seq<UnionFind.Edge>)
    ensures |r| == |rs| && forall i :: 0 <= i < |rs| ==> r[i] == UnionFind.Edge(rs[i].from, rs[i].to)
  {
    seq(|rs|, i requires 0 <= i < |rs| => UnionFind.Edge(rs[i].from, rs[i].to))
  }

  function RootsOf(unit: BatchUnit): (r: map<string, string>)
    requires ValidUnit(unit)
    ensures r.Keys == KeySet(unit)
  {
    UnionFind.Roots(KeySet(unit), EdgesOf(unit.relationships))
  }

  function TagMemories(ms: seq<MemoryDraft>, roots: map<string, string>): (r: seq<(string, MemoryDraft)>)
    requires forall i :: 0 <= i < |ms| ==> ms[i].draftKey in roots
    ensures |r| == |ms| && forall i :: 0 <= i < |ms| ==> r[i] == (roots[ms[i].draftKey], ms[i])
  {
    seq(|ms|, i requires 0 <= i < |ms| => (roots[ms[i].draftKey], ms[i]))
  }

  function TagRelationships(rs: seq<RelationshipDraft>,
      roots: map<string, string>): (r: seq<(string, RelationshipDraft)>)
    requires forall i :: 0 <= i < |rs| ==> rs[i].from in roots
    ensures |r| == |rs| && forall i :: 0 <= i < |rs| ==> r[i] == (roots[rs[i].from], rs[i])
  {
    seq(|rs|, i requires 0 <= i < |rs| => (roots[rs[i].from], rs[i]))
  }

  function Tags<T>(items: seq<(string, T)>): (r: seq<string>)
    ensures |r| == |items| && forall i :: 0 <= i < |items| ==> r[i] == items[i].0
  {
    seq(|items|, i requires 0 <= i < |items| => items[i].0)
  }

  /** The roots in ascending order, each once. */
  function RootOrder(tagged: seq<(string, MemoryDraft)>): seq<string> {
    StableSort(FirstSeen(Tags(tagged)), LexLe)
  }

  function ComponentsFor(tm: seq<(string, MemoryDraft)>, tr: seq<(string, RelationshipDraft)>,
      order: seq<string>): (r: seq<Component>)
    ensures |r| == |order|
    ensures forall i :: 0 <= i < |order| ==> r[i] == Component(Pick(tm, order[i]), Pick(tr, order[i]))
  {
    seq(|order|, i requires 0 <= i < |order| => Component(Pick(tm, order[i]), Pick(tr, order[i])))
  }

  function TaggedMemories(unit: BatchUnit): (r: seq<(string, MemoryDraft)>)
    requires ValidUnit(unit)
    ensures Untagged(r) == unit.memories
    ensures forall i :: 0 <= i < |r| ==> r[i].1.draftKey in RootsOf(unit) && r[i].0 == RootsOf(unit)[r[i].1.draftKey]
  {
    TagMemories(unit.memories, RootsOf(unit))
  }

  function TaggedRelationships(unit: BatchUnit): (r: seq<(string, RelationshipDraft)>)
    requires ValidUnit(unit)
    ensures Untagged(r) == unit.relationships
    ensures forall i :: 0 <= i < |r| ==> r[i].1.from in RootsOf(unit) && r[i].0 == RootsOf(unit)[r[i].1.from]
  {
    TagRelationships(unit.relationships, RootsOf(unit))
  }

  function Components(unit: BatchUnit): seq<Component>
    requires ValidUnit(unit)
  {
    ComponentsFor(TaggedMemories(unit), TaggedRelationships(unit), RootOrder(TaggedMemories(unit)))
  }

  // ----- packing

  predicate MemoryLe(a: MemoryDraft, b: MemoryDraft) { LexLe(a.draftKey, b.draftKey) }

  predicate RelationshipLe(a: RelationshipDraft, b: RelationshipDraft) {
    if a.from != b.from then LexLe(a.from, b.from)
    else if a.to != b.to then LexLe(a.to, b.to)
    else LexLe(a.kind, b.kind)
  }

  function AllMemories(cs: seq<Component>): seq<MemoryDraft> {
    if cs == [] then [] else cs[0].memories + AllMemories(cs[1..])
  }

  function AllRelationships(cs: seq<Component>): seq<RelationshipDraft> {
    if cs == [] then [] else cs[0].relationships + AllRelationships(cs[1..])
  }

  function Flush(cs: seq<Component>, index: nat): Batch {
    Batch(index, StableSort(AllMemories(cs), MemoryLe), StableSort(AllRelationships(cs), RelationshipLe))
  }

  function ComponentBytes(c: Component, index: nat, sizes: Sizes): nat {
    sizes.component(StableSort(c.memories, MemoryLe), c.relationships, index)
  }

  /** The draft keys in ascending order. */
  function SortedKeys(ms: seq<MemoryDraft>): seq<string> {
    DraftKeys(StableSort(ms, MemoryLe))
  }

  /** The ceiling a component breaks on its own, if any; memories are checked before edges. */
  function Breaks(c: Component, bytes: nat, maxBytes: nat): Option<SdkError> {
    if |c.memories| > MAX_MEMORIES_PER_BATCH then Some(Unsplittable(SortedKeys(c.memories), MaxMemories))
    else if |c.relationships| > MAX_EDGES_PER_BATCH then Some(Unsplittable(SortedKeys(c.memories), MaxEdges))
    else if bytes > maxBytes then Some(Unsplittable(SortedKeys(c.memories), MaxBytes))
    else None
  }

  predicate Overflows(pending: seq<Component>, pendingBytes: nat, c: Component, bytes: nat, maxBytes: nat) {
    || pendingBytes + bytes > maxBytes
    || |AllMemories(pending)| + |c.memories| > MAX_MEMORIES_PER_BATCH
    || |AllRelationships(pending)| + |c.relationships| > MAX_EDGES_PER_BATCH
  }

  /** Greedy packing: a component joins the pending batch unless it overflows it. */
  function Pack(cs: seq<Component>, pending: seq<Component>, pendingBytes: nat, index: nat, sizes: Sizes, maxBytes: nat)
    : Result<seq<Batch>, SdkError>
    decreases |cs|
  {
    if cs == [] then Ok(if pending == [] then [] else [Flush(pending, index)])
    else
      var c := cs[0];
      var bytes := ComponentBytes(c, index, sizes);
      var broken := Breaks(c, bytes, maxBytes);
      if broken.Some? then Err(broken.value)
      else if Overflows(pending, pendingBytes, c, bytes, maxBytes) && pending != [] then
        match Pack(cs[1..], [c], bytes, index + 1, sizes, maxBytes)
        case Err(e) => Err(e)
        case Ok(rest) => Ok([Flush(pending, index)] + rest)
      else Pack(cs[1..], pending + [c], pendingBytes + bytes, index, sizes, maxBytes)
  }

  /** The first emitted batch over the byte budget, if any. */
  function Oversized(batches: seq<Batch>, sizes: Sizes, maxBytes: nat): Option<SdkError> {
    if batches == [] then None
    else if sizes.batch(batches[0]) > maxBytes then Some(Unsplittable(SortedKeys(batches[0].memories), MaxBytes))
    else Oversized(batches[1..], sizes, maxBytes)
  }

  /** The emitted batches, unless one is over the byte budget after all. */
  function Checked(packed: Result<seq<Batch>, SdkError>, sizes: Sizes, maxBytes: nat): Result<seq<Batch>, SdkError> {
    match packed
    case Err(e) => Err(e)
    case Ok(batches) =>
      var over := Oversized(batches, sizes, maxBytes);
      if over.Some? then Err(over.value) else Ok(batches)
  }

  ghost function Split(unit: BatchUnit, sizes: Sizes, maxBytes: nat): Result<seq<Batch>, SdkError> {
    if !ValidUnit(unit) then Err(InvalidUnit)
    else Checked(Pack(Components(unit), [], 0, 0, sizes, maxBytes), sizes, maxBytes)
  }

  // ----- the shape of a packing

  ghost predicate WithinCeilings(g: seq<Component>) {
    |AllMemories(g)| <= MAX_MEMORIES_PER_BATCH && |AllRelationships(g)| <= MAX_EDGES_PER_BATCH
  }

  /** Batch i is the flush of group i, and no group is empty or over a count ceiling. */
  ghost predicate Shaped(bs: seq<Batch>, groups: seq<seq<Component>>, index: nat) {
    && |bs| == |groups|
    && forall i :: 0 <= i < |bs| ==>
         groups[i] != [] && WithinCeilings(groups[i]) && bs[i] == Flush(groups[i], index + i)
  }

  lemma {:induction false} AllUnfolds(cs: seq<Component>)
    requires cs != []
    ensures AllMemories(cs) == cs[0].memories + AllMemories(cs[1..])
    ensures AllRelationships(cs) == cs[0].relationships + AllRelationships(cs[1..])
  {
  }

  lemma {:induction false} AllConcat(a: seq<Component>, b: seq<Component>)
    ensures AllMemories(a + b) == AllMemories(a) + AllMemories(b)
    ensures AllRelationships(a + b) == AllRelationships(a) + AllRelationships(b)
  {
    if a == [] {
      assert a + b == b;
    } else {
      assert (a + b)[1..] == a[1..] + b && (a + b)[0] == a[0];
      AllConcat(a[1..], b);
      AllUnfolds(a);
      AllUnfolds(a + b);
      hide AllMemories, AllRelationships;
    }
  }

  lemma AllOne(c: Component)
    ensures AllMemories([c]) == c.memories && AllRelationships([c]) == c.relationships
  {
    assert [c][1..] == [];
  }

  lemma {:induction false} ShapedPrepend(g: seq<Component>, bs: seq<Batch>, groups: seq<seq<Component>>, index: nat)
    requires g != [] && WithinCeilings(g) && Shaped(bs, groups, index + 1)
    ensures Shaped([Flush(g, index)] + bs, [g] + groups, index)
    ensures Flat([g] + groups) == g + Flat(groups)
  {
    hide Flush, WithinCeilings;
    assert ([g] + groups)[1..] == groups;
    FlatFirst([g] + groups);
  }

  /** What the wire format estimates for a component, were it in batch `k`. */
  function Estimated(c: Component, k: nat, sizes: Sizes): nat {
    sizes.component(StableSort(c.memories, MemoryLe), c.relationships, k)
  }

  /** What batch `k` was taken to weigh when it was packed: the component that opened it was estimated while the batch
      before it was still open. */
  function Weight(g: seq<Component>, k: nat, sizes: Sizes): nat {
    if g == [] then 0
    else
      var n := |g| - 1;
      Weight(g[..n], k, sizes) + Estimated(g[n], if n == 0 && k > 0 then k - 1 else k, sizes)
  }

  /** One more component would take batch `k` over a ceiling. */
  ghost predicate Full(g: seq<Component>, c: Component, k: nat, sizes: Sizes, maxBytes: nat) {
    || |AllMemories(g)| + |c.memories| > MAX_MEMORIES_PER_BATCH
    || |AllRelationships(g)| + |c.relationships| > MAX_EDGES_PER_BATCH
    || Weight(g, k, sizes) + Estimated(c, k, sizes) > maxBytes
  }

  /** No batch weighs too much, and none is closed while the next component still fits. */
  ghost predicate Tight(groups: seq<seq<Component>>, index: nat, sizes: Sizes, maxBytes: nat) {
    && (forall i :: 0 <= i < |groups| ==> groups[i] != [] && Weight(groups[i], index + i, sizes) <= maxBytes)
    && (forall i :: 0 <= i < |groups| - 1 ==> Full(groups[i], groups[i + 1][0], index + i, sizes, maxBytes))
  }

  lemma {:induction false} TightPrepend(g: seq<Component>, groups: seq<seq<Component>>, index: nat, sizes: Sizes,
      maxBytes: nat)
    requires g != [] && Weight(g, index, sizes) <= maxBytes && Tight(groups, index + 1, sizes, maxBytes)
    requires groups != [] ==> groups[0] != [] && Full(g, groups[0][0], index, sizes, maxBytes)
    ensures Tight([g] + groups, index, sizes, maxBytes)
  {
    hide Full, Weight;
    assert forall i :: 0 < i < |groups| + 1 ==> ([g] + groups)[i] == groups[i - 1];
  }

  lemma {:induction false} WeightOne(c: Component, k: nat, sizes: Sizes)
    ensures Weight([c], k + 1, sizes) == Weight([c], 0, sizes) - Estimated(c, 0, sizes) + Estimated(c, k, sizes)
    ensures Weight([c], 0, sizes) == Estimated(c, 0, sizes)
  {
    hide Estimated;
    assert [c][..0] == [];
  }

  lemma {:induction false} WeightMore(g: seq<Component>, c: Component, k: nat, sizes: Sizes)
    requires g != []
    ensures Weight(g + [c], k, sizes) == Weight(g, k, sizes) + Estimated(c, k, sizes)
  {
    hide Estimated;
    assert (g + [c])[..|g|] == g;
  }

  /** The packing loop's tally of the open batch. */
  ghost predicate Tallied(pending: seq<Component>, pendingBytes: nat, index: nat, sizes: Sizes, maxBytes: nat) {
    && WithinCeilings(pending) && pendingBytes == Weight(pending, index, sizes) <= maxBytes
    && (pending == [] ==> index == 0)
  }

  /** A component that breaks nothing joins the open batch, or finds it full and opens the next. */
  lemma TallyMoves(c: Component, pending: seq<Component>, pendingBytes: nat, index: nat, sizes: Sizes, maxBytes: nat)
    requires Tallied(pending, pendingBytes, index, sizes, maxBytes)
    ensures var bytes := ComponentBytes(c, index, sizes);
      Breaks(c, bytes, maxBytes).None? ==>
        if Overflows(pending, pendingBytes, c, bytes, maxBytes) && pending != [] then
          Full(pending, c, index, sizes, maxBytes) && Tallied([c], bytes, index + 1, sizes, maxBytes)
        else Tallied(pending + [c], pendingBytes + bytes, index, sizes, maxBytes)
  {
    AllOne(c);
    AllConcat(pending, [c]);
    WeightOne(c, index, sizes);
    hide StableSort, AllMemories, AllRelationships, Weight, SortedKeys;
    if pending != [] {
      WeightMore(pending, c, index, sizes);
    } else {
      assert pending + [c] == [c];
      WeightNone(index, sizes);
    }
  }

  /** A successful packing cuts the components, in order, into consecutive groups, one per batch, each as full as
      the order allows. */
  lemma {:induction false} PackShape(cs: seq<Component>, pending: seq<Component>, pendingBytes: nat, index: nat,
      sizes: Sizes, maxBytes: nat)
    returns (groups: seq<seq<Component>>)
    requires Pack(cs, pending, pendingBytes, index, sizes, maxBytes).Ok?
    requires Tallied(pending, pendingBytes, index, sizes, maxBytes)
    ensures Shaped(Pack(cs, pending, pendingBytes, index, sizes, maxBytes).value, groups, index)
    ensures Flat(groups) == pending + cs && Tight(groups, index, sizes, maxBytes)
    ensures pending != [] ==> groups != [] && groups[0] != [] && groups[0][0] == pending[0]
    decreases |cs|
  {
    hide Flush, StableSort, Flat, Weight;
    if cs == [] {
      groups := if pending == [] then [] else [pending];
      if pending != [] {
        ShapedPrepend(pending, [], [], index);
      }
      assert Flat<Component>([]) == [] by { ConcatEmpty(); }
      assert [pending] + [] == [pending] && [Flush(pending, index)] + [] == [Flush(pending, index)];
    } else {
      var c := cs[0];
      var bytes := ComponentBytes(c, index, sizes);
      TallyMoves(c, pending, pendingBytes, index, sizes, maxBytes);
      hide Full, Overflows, Breaks, ComponentBytes, WithinCeilings;
      if Overflows(pending, pendingBytes, c, bytes, maxBytes) && pending != [] {
        var rest := PackShape(cs[1..], [c], bytes, index + 1, sizes, maxBytes);
        groups := [pending] + rest;
        ShapedPrepend(pending, Pack(cs[1..], [c], bytes, index + 1, sizes, maxBytes).value, rest, index);
        TightPrepend(pending, rest, index, sizes, maxBytes);
        assert pending + ([c] + cs[1..]) == pending + cs;
      } else {
        groups := PackShape(cs[1..], pending + [c], pendingBytes + bytes, index, sizes, maxBytes);
        assert pending + [c] + cs[1..] == pending + cs;
      }
    }
  }

  lemma {:induction false} WeightNone(k: nat, sizes: Sizes)
    ensures Weight([], k, sizes) == 0
  {
  }

  lemma ConcatEmpty()
    ensures Flat<Component>([]) == []
  {
  }

  // ----- what a successful split guarantees

  function BatchMemories(bs: seq<Batch>): seq<MemoryDraft> {
    if bs == [] then [] else bs[0].memories + BatchMemories(bs[1..])
  }

  function BatchRelationships(bs: seq<Batch>): seq<RelationshipDraft> {
    if bs == [] then [] else bs[0].relationships + BatchRelationships(bs[1..])
  }

  lemma {:induction false} ShapedConserves(bs: seq<Batch>, groups: seq<seq<Component>>, index: nat)
    requires Shaped(bs, groups, index)
    ensures multiset(BatchMemories(bs)) == multiset(AllMemories(Flat(groups)))
    ensures multiset(BatchRelationships(bs)) == multiset(AllRelationships(Flat(groups)))
  {
    if bs != [] {
      assert Shaped(bs[1..], groups[1..], index + 1);
      ShapedConserves(bs[1..], groups[1..], index + 1);
      FlatFirst(groups);
      AllConcat(groups[0], Flat(groups[1..]));
      assert bs[0] == Flush(groups[0], index);
    }
  }

  /** The root order lists every tag exactly once. */
  lemma RootOrderCovers(tagged: seq<(string, MemoryDraft)>)
    ensures Distinct(RootOrder(tagged)) && forall x :: x in RootOrder(tagged) <==> x in Tags(tagged)
  {
    var seen := FirstSeen(Tags(tagged));
    RearrangedDistinct(seen, StableSort(seen, LexLe));
    forall x ensures x in RootOrder(tagged) <==> x in seen {
      assert x in seen <==> x in multiset(seen);
      assert x in RootOrder(tagged) <==> x in multiset(RootOrder(tagged));
    }
  }

  lemma {:induction false} AllIsGroups(tm: seq<(string, MemoryDraft)>, tr: seq<(string, RelationshipDraft)>,
      order: seq<string>)
    ensures AllMemories(ComponentsFor(tm, tr, order)) == Flat(Groups(tm, order))
    ensures AllRelationships(ComponentsFor(tm, tr, order)) == Flat(Groups(tr, order))
  {
    if order != [] {
      AllIsGroups(tm, tr, order[1..]);
      assert ComponentsFor(tm, tr, order)[1..] == ComponentsFor(tm, tr, order[1..]);
      assert Groups(tm, order)[1..] == Groups(tm, order[1..]);
      assert Groups(tr, order)[1..] == Groups(tr, order[1..]);
      FlatFirst(Groups(tm, order));
      FlatFirst(Groups(tr, order));
    }
  }

  lemma KeyIsTagged(unit: BatchUnit, key: string) returns (m: MemoryDraft)
    requires ValidUnit(unit) && key in KeySet(unit)
    ensures m.draftKey == key && (RootsOf(unit)[key], m) in TaggedMemories(unit)
  {
    var j :| 0 <= j < |unit.memories| && DraftKeys(unit.memories)[j] == key;
    m := unit.memories[j];
    assert TaggedMemories(unit)[j] == (RootsOf(unit)[key], m);
  }

  /** Every relationship's root is one of the listed roots. */
  lemma RelationshipRoots(unit: BatchUnit)
    requires ValidUnit(unit)
    ensures forall i :: 0 <= i < |TaggedRelationships(unit)| ==>
      TaggedRelationships(unit)[i].0 in RootOrder(TaggedMemories(unit))
  {
    var (tm, tr) := (TaggedMemories(unit), TaggedRelationships(unit));
    RootOrderCovers(tm);
    hide RootOrder, ValidUnit, TaggedMemories, TaggedRelationships;
    forall i | 0 <= i < |tr|
      ensures tr[i].0 in RootOrder(tm)
    {
      var m := KeyIsTagged(unit, tr[i].1.from);
      var j :| 0 <= j < |tm| && tm[j] == (tr[i].0, m);
      assert Tags(tm)[j] == tr[i].0;
    }
  }

  lemma PartitionFor(tm: seq<(string, MemoryDraft)>, tr: seq<(string, RelationshipDraft)>, order: seq<string>)
    requires Distinct(order)
    requires (forall i :: 0 <= i < |tm| ==> tm[i].0 in order) && (forall i :: 0 <= i < |tr| ==> tr[i].0 in order)
    ensures multiset(AllMemories(ComponentsFor(tm, tr, order))) == multiset(Untagged(tm))
    ensures multiset(AllRelationships(ComponentsFor(tm, tr, order))) == multiset(Untagged(tr))
  {
    AllIsGroups(tm, tr, order);
    GroupsPartition(tm, order);
    GroupsPartition(tr, order);
  }

  lemma MemoryRoots(tm: seq<(string, MemoryDraft)>)
    ensures forall i :: 0 <= i < |tm| ==> tm[i].0 in RootOrder(tm)
  {
    RootOrderCovers(tm);
    hide RootOrder;
    forall i | 0 <= i < |tm| ensures tm[i].0 in RootOrder(tm) { assert Tags(tm)[i] == tm[i].0; }
  }

  /** The components partition the unit. */
  lemma ComponentsPartition(unit: BatchUnit)
    requires ValidUnit(unit)
    ensures multiset(AllMemories(Components(unit))) == multiset(unit.memories)
    ensures multiset(AllRelationships(Components(unit))) == multiset(unit.relationships)
  {
    var (tm, tr) := (TaggedMemories(unit), TaggedRelationships(unit));
    RootOrderCovers(tm);
    MemoryRoots(tm);
    RelationshipRoots(unit);
    PartitionFor(tm, tr, RootOrder(tm));
    hide ValidUnit, RootOrder, TaggedMemories, TaggedRelationships, ComponentsFor, AllMemories, AllRelationships, Tags;
  }

  ghost predicate Has(ms: seq<MemoryDraft>, key: string) {
    exists m :: m in ms && m.draftKey == key
  }

  /** Every relationship sits with both its endpoint drafts. */
  ghost predicate Colocated(ms: seq<MemoryDraft>, rs: seq<RelationshipDraft>) {
    forall r :: r in rs ==> Has(ms, r.from) && Has(ms, r.to)
  }

  lemma ComponentColocated(unit: BatchUnit, i: nat)
    requires ValidUnit(unit) && i < |Components(unit)|
    ensures Colocated(Components(unit)[i].memories, Components(unit)[i].relationships)
  {
    var (tm, tr) := (TaggedMemories(unit), TaggedRelationships(unit));
    var c, root := Components(unit)[i], RootOrder(tm)[i];
    PickMembers(tr, root);
    forall r | r in c.relationships
      ensures Has(c.memories, r.from) && Has(c.memories, r.to)
    {
      assert (root, r) in tr;
      var j :| 0 <= j < |tr| && tr[j] == (root, r);
      EndpointsShareRoot(unit, j);
      EndpointIsPicked(unit, root, r.from);
      EndpointIsPicked(unit, root, r.to);
    }
  }

  lemma EndpointsShareRoot(unit: BatchUnit, j: nat)
    requires ValidUnit(unit) && j < |unit.relationships|
    ensures var r := unit.relationships[j];
      r.from in KeySet(unit) && r.to in KeySet(unit) && RootsOf(unit)[r.from] == RootsOf(unit)[r.to]
  {
    UnionFind.EdgesShareRoots(KeySet(unit), EdgesOf(unit.relationships));
    assert EdgesOf(unit.relationships)[j] == UnionFind.Edge(unit.relationships[j].from, unit.relationships[j].to);
  }

  lemma {:induction false} EndpointIsPicked(unit: BatchUnit, root: string, key: string)
    requires ValidUnit(unit) && key in KeySet(unit) && RootsOf(unit)[key] == root
    ensures Has(Pick(TaggedMemories(unit), root), key)
  {
    var m := KeyIsTagged(unit, key);
    PickMembers(TaggedMemories(unit), root);
  }

  lemma {:induction false} GroupColocated(g: seq<Component>)
    requires forall i :: 0 <= i < |g| ==> Colocated(g[i].memories, g[i].relationships)
    ensures Colocated(AllMemories(g), AllRelationships(g))
  {
    if g != [] {
      GroupColocated(g[1..]);
      forall r | r in AllRelationships(g)
        ensures Has(AllMemories(g), r.from) && Has(AllMemories(g), r.to)
      {
        if r in g[0].relationships {
          HasMore(g[0].memories, AllMemories(g), r.from);
          HasMore(g[0].memories, AllMemories(g), r.to);
        } else {
          HasMore(AllMemories(g[1..]), AllMemories(g), r.from);
          HasMore(AllMemories(g[1..]), AllMemories(g), r.to);
        }
      }
    }
  }

  lemma HasMore(a: seq<MemoryDraft>, b: seq<MemoryDraft>, key: string)
    requires Has(a, key) && forall m :: m in a ==> m in b
    ensures Has(b, key)
  {
  }

  lemma FlushColocated(g: seq<Component>, index: nat)
    requires forall i :: 0 <= i < |g| ==> Colocated(g[i].memories, g[i].relationships)
    ensures Colocated(Flush(g, index).memories, Flush(g, index).relationships)
  {
    GroupColocated(g);
    var b := Flush(g, index);
    forall m ensures m in b.memories <==> m in AllMemories(g) {
      assert m in b.memories <==> m in multiset(b.memories);
      assert m in AllMemories(g) <==> m in multiset(AllMemories(g));
    }
    forall r | r in b.relationships
      ensures Has(b.memories, r.from) && Has(b.memories, r.to)
    {
      assert r in multiset(b.relationships);
      assert r in AllRelationships(g);
      HasMore(AllMemories(g), b.memories, r.from);
      HasMore(AllMemories(g), b.memories, r.to);
    }
  }

  lemma {:induction false} NoneOversized(bs: seq<Batch>, sizes: Sizes, maxBytes: nat)
    ensures Oversized(bs, sizes, maxBytes).None? <==> forall i :: 0 <= i < |bs| ==> sizes.batch(bs[i]) <= maxBytes
  {
    if bs != [] { NoneOversized(bs[1..], sizes, maxBytes); }
  }

  /** A successful split partitions the unit: each memory and each relationship is in exactly one batch,
      every relationship sits with both endpoint drafts, and no batch is over any ceiling. */
  lemma SplitIsPartition(unit: BatchUnit, sizes: Sizes, maxBytes: nat)
    requires Split(unit, sizes, maxBytes).Ok?
    ensures var bs := Split(unit, sizes, maxBytes).value;
      && multiset(BatchMemories(bs)) == multiset(unit.memories)
      && multiset(BatchRelationships(bs)) == multiset(unit.relationships)
      && forall i :: 0 <= i < |bs| ==>
           && bs[i].index == i
           && Colocated(bs[i].memories, bs[i].relationships)
           && |bs[i].memories| <= MAX_MEMORIES_PER_BATCH && |bs[i].relationships| <= MAX_EDGES_PER_BATCH
           && sizes.batch(bs[i]) <= maxBytes
  {
    var bs := Split(unit, sizes, maxBytes).value;
    assert ValidUnit(unit) && Pack(Components(unit), [], 0, 0, sizes, maxBytes) == Ok(bs);
    NoneOversized(bs, sizes, maxBytes);
    hide Components, Colocated, StableSort, ValidUnit, Pack;
    SplitShape(unit, sizes, maxBytes, bs);
  }

  lemma {:induction false} SplitShape(unit: BatchUnit, sizes: Sizes, maxBytes: nat, bs: seq<Batch>)
    requires ValidUnit(unit) && Pack(Components(unit), [], 0, 0, sizes, maxBytes) == Ok(bs)
    ensures multiset(BatchMemories(bs)) == multiset(unit.memories)
    ensures multiset(BatchRelationships(bs)) == multiset(unit.relationships)
    ensures forall i :: 0 <= i < |bs| ==>
      && bs[i].index == i && Colocated(bs[i].memories, bs[i].relationships)
      && |bs[i].memories| <= MAX_MEMORIES_PER_BATCH && |bs[i].relationships| <= MAX_EDGES_PER_BATCH
  {
    hide Components, Colocated, StableSort, ValidUnit, Pack;
    WeightNone(0, sizes);
    var groups := PackShape(Components(unit), [], 0, 0, sizes, maxBytes);
    assert [] + Components(unit) == Components(unit);
    ShapedConserves(bs, groups, 0);
    ComponentsPartition(unit);
    forall i | 0 <= i < |bs|
      ensures bs[i].index == i && Colocated(bs[i].memories, bs[i].relationships)
      ensures |bs[i].memories| <= MAX_MEMORIES_PER_BATCH && |bs[i].relationships| <= MAX_EDGES_PER_BATCH
    {
      BatchColocated(unit, groups, i);
    }
  }

  lemma {:induction false} BatchColocated(unit: BatchUnit, groups: seq<seq<Component>>, i: nat)
    requires ValidUnit(unit) && Flat(groups) == Components(unit) && i < |groups|
    ensures Colocated(Flush(groups[i], i).memories, Flush(groups[i], i).relationships)
  {
    hide Components, Colocated;
    forall j | 0 <= j < |groups[i]|
      ensures Colocated(groups[i][j].memories, groups[i][j].relationships)
    {
      FlatAt(groups, i, j);
      var k :| 0 <= k < |Components(unit)| && Components(unit)[k] == groups[i][j];
      ComponentColocated(unit, k);
    }
    FlushColocated(groups[i], i);
  }

  // ----- components are trees at most plus their extra edges

  lemma {:induction false} PickCount(rs: seq<RelationshipDraft>, roots: map<string, string>, root: string)
    requires UnionFind.Endpoints(roots.Keys, EdgesOf(rs)) && forall i :: 0 <= i < |rs| ==> rs[i].from in roots
    ensures |Pick(TagRelationships(rs, roots), root)| == UnionFind.EdgesIn(roots, EdgesOf(rs), root)
  {
    if rs != [] {
      var n := |rs| - 1;
      assert TagRelationships(rs, roots)[..n] == TagRelationships(rs[..n], roots);
      assert EdgesOf(rs)[..n] == EdgesOf(rs[..n]);
      forall i | 0 <= i < n ensures EdgesOf(rs[..n])[i].from in roots && EdgesOf(rs[..n])[i].to in roots {
        assert EdgesOf(rs)[i] == EdgesOf(rs[..n])[i];
      }
      PickCount(rs[..n], roots, root);
    }
  }

  /** Drafts with one tag keep their distinct keys, all in the tag's class. */
  lemma {:induction false} PickKeys(tm: seq<(string, MemoryDraft)>, roots: map<string, string>, root: string)
    requires forall i :: 0 <= i < |tm| ==> tm[i].1.draftKey in roots && tm[i].0 == roots[tm[i].1.draftKey]
    requires forall i, j :: 0 <= i < j < |tm| ==> tm[i].1.draftKey != tm[j].1.draftKey
    ensures var keys := DraftKeys(Pick(tm, root));
      Distinct(keys) && forall k :: k in keys ==>
        k in UnionFind.Class(roots, root) && exists i :: 0 <= i < |tm| && tm[i].1.draftKey == k
  {
    if tm != [] {
      var n := |tm| - 1;
      PickKeys(tm[..n], roots, root);
      var before := DraftKeys(Pick(tm[..n], root));
      forall k | k in before
        ensures k != tm[n].1.draftKey && exists i :: 0 <= i < |tm| && tm[i].1.draftKey == k
      {
        var i :| 0 <= i < n && tm[..n][i].1.draftKey == k;
        assert tm[i].1.draftKey == k;
      }
      assert tm[n].1.draftKey !in before;
      assert tm[n].0 == root ==> DraftKeys(Pick(tm, root)) == before + [tm[n].1.draftKey];
      assert tm[n].0 != root ==> DraftKeys(Pick(tm, root)) == before;
    }
  }

  lemma TaggedKeysDistinct(unit: BatchUnit)
    requires ValidUnit(unit)
    ensures var tm := TaggedMemories(unit); forall i, j :: 0 <= i < j < |tm| ==> tm[i].1.draftKey != tm[j].1.draftKey
  {
    var keys := DraftKeys(unit.memories);
    assert forall i :: 0 <= i < |TaggedMemories(unit)| ==> TaggedMemories(unit)[i].1.draftKey == keys[i];
  }

  /** A component with k relationships has at most k + 1 memories. */
  lemma ComponentSize(unit: BatchUnit, i: nat)
    requires ValidUnit(unit) && i < |Components(unit)|
    ensures |Components(unit)[i].memories| <= |Components(unit)[i].relationships| + 1
  {
    var (tm, roots) := (TaggedMemories(unit), RootsOf(unit));
    var c, root := Components(unit)[i], RootOrder(tm)[i];
    UnionFind.ClassSize(KeySet(unit), EdgesOf(unit.relationships), root);
    PickCount(unit.relationships, roots, root);
    assert |c.relationships| == UnionFind.EdgesIn(roots, EdgesOf(unit.relationships), root);
    TaggedKeysDistinct(unit);
    PickKeys(tm, roots, root);
    hide ValidUnit, RootOrder, TaggedMemories, UnionFind.EdgesIn, UnionFind.Roots;
    var keys := DraftKeys(c.memories);
    DistinctBySize(keys);
    UnionFind.SubsetSize(Elements(keys), UnionFind.Class(roots, root));
  }

  /** With the memory ceiling above the edge ceiling, only a component over the edge ceiling can be over
      the memory ceiling. */
  lemma MemoryCeilingNeedsEdges(unit: BatchUnit, i: nat, maxMemories: nat, maxEdges: nat)
    requires ValidUnit(unit) && i < |Components(unit)| && maxEdges < maxMemories
    requires |Components(unit)[i].memories| > maxMemories
    ensures |Components(unit)[i].relationships| > maxEdges
  {
    ComponentSize(unit, i);
  }

  // ----- the order of a unit's memories does not matter

  /** Drafts are determined by their keys. */
  ghost predicate Keyed(ms: seq<MemoryDraft>) {
    forall x, y :: x in ms && y in ms && x.draftKey == y.draftKey ==> x == y
  }

  lemma {:induction false} SortDraftsForgetsOrder(a: seq<MemoryDraft>, b: seq<MemoryDraft>)
    requires multiset(a) == multiset(b) && Keyed(a)
    ensures StableSort(a, MemoryLe) == StableSort(b, MemoryLe) && |a| == |b|
  {
    LexIsOrder();
    SameSize(a, b);
    assert TotalPreorder(MemoryLe) by {
      forall x: MemoryDraft, y, z | MemoryLe(x, y) && MemoryLe(y, z) ensures MemoryLe(x, z) {
        LexTransitive(x.draftKey, y.draftKey, z.draftKey);
      }
    }
    SortForgetsOrder(a, b, MemoryLe);
  }

  ghost predicate Similar(a: seq<Component>, b: seq<Component>) {
    && |a| == |b|
    && forall i :: 0 <= i < |a| ==>
         a[i].relationships == b[i].relationships && multiset(a[i].memories) == multiset(b[i].memories)
  }

  lemma {:induction false} SimilarAll(a: seq<Component>, b: seq<Component>)
    requires Similar(a, b)
    ensures multiset(AllMemories(a)) == multiset(AllMemories(b)) && AllRelationships(a) == AllRelationships(b)
  {
    if a != [] { SimilarAll(a[1..], b[1..]); }
  }

  ghost predicate DrawnFrom(cs: seq<Component>, universe: seq<MemoryDraft>) {
    forall i :: 0 <= i < |cs| ==> forall m :: m in cs[i].memories ==> m in universe
  }

  lemma {:induction false} DrawnAll(cs: seq<Component>, universe: seq<MemoryDraft>)
    requires DrawnFrom(cs, universe)
    ensures forall m :: m in AllMemories(cs) ==> m in universe
  {
    if cs != [] { DrawnAll(cs[1..], universe); }
  }

  lemma {:induction false} SimilarFlush(a: seq<Component>, b: seq<Component>, universe: seq<MemoryDraft>, index: nat)
    requires Similar(a, b) && DrawnFrom(a, universe) && Keyed(universe)
    ensures Flush(a, index) == Flush(b, index)
    ensures |AllMemories(a)| == |AllMemories(b)| && |AllRelationships(a)| == |AllRelationships(b)|
  {
    SimilarAll(a, b);
    DrawnAll(a, universe);
    SortDraftsForgetsOrder(AllMemories(a), AllMemories(b));
  }

  /** One step of packing. */
  lemma PackUnfolds(cs: seq<Component>, pending: seq<Component>, pendingBytes: nat, index: nat, sizes: Sizes,
      maxBytes: nat)
    requires cs != []
    ensures var bytes := ComponentBytes(cs[0], index, sizes);
      Pack(cs, pending, pendingBytes, index, sizes, maxBytes) ==
        if Breaks(cs[0], bytes, maxBytes).Some? then Err(Breaks(cs[0], bytes, maxBytes).value)
        else if Overflows(pending, pendingBytes, cs[0], bytes, maxBytes) && pending != [] then
          match Pack(cs[1..], [cs[0]], bytes, index + 1, sizes, maxBytes)
          case Err(e) => Err(e)
          case Ok(rest) => Ok([Flush(pending, index)] + rest)
        else Pack(cs[1..], pending + [cs[0]], pendingBytes + bytes, index, sizes, maxBytes)
  {
  }

  ghost predicate Alike(c: Component, d: Component, universe: seq<MemoryDraft>) {
    && c.relationships == d.relationships && multiset(c.memories) == multiset(d.memories)
    && forall m :: m in c.memories ==> m in universe
  }

  lemma SimilarStep(a: seq<Component>, b: seq<Component>, p: seq<Component>, q: seq<Component>,
      universe: seq<MemoryDraft>)
    requires Similar(a, b) && Similar(p, q) && DrawnFrom(a, universe) && DrawnFrom(p, universe) && a != []
    ensures Similar(a[1..], b[1..]) && DrawnFrom(a[1..], universe)
    ensures Similar([a[0]], [b[0]]) && DrawnFrom([a[0]], universe)
    ensures Alike(a[0], b[0], universe)
    ensures Similar(p + [a[0]], q + [b[0]]) && DrawnFrom(p + [a[0]], universe)
  {
  }

  /** Packing components that differ only in the order of their memories gives the same batches. */
  lemma {:induction false} PackForgetsOrder(a: seq<Component>, b: seq<Component>, p: seq<Component>, q: seq<Component>,
                                            pendingBytes: nat, index: nat, sizes: Sizes, maxBytes: nat,
                                              universe: seq<MemoryDraft>)
    requires Similar(a, b) && Similar(p, q) && DrawnFrom(a, universe) && DrawnFrom(p, universe) && Keyed(universe)
    ensures Pack(a, p, pendingBytes, index, sizes, maxBytes) == Pack(b, q, pendingBytes, index, sizes, maxBytes)
    decreases |a|
  {
    hide StableSort, Flush, Keyed, Similar, DrawnFrom, Alike, Pack, ComponentBytes, Breaks, Overflows;
    SimilarFlush(p, q, universe, index);
    SameLength(a, b);
    SameLength(p, q);
    if a == [] {
      PackEnds(p, pendingBytes, index, sizes, maxBytes);
      PackEnds(q, pendingBytes, index, sizes, maxBytes);
    } else {
      SimilarStep(a, b, p, q, universe);
      PackUnfolds(a, p, pendingBytes, index, sizes, maxBytes);
      PackUnfolds(b, q, pendingBytes, index, sizes, maxBytes);
      var bytes := ComponentBytes(a[0], index, sizes);
      SameDecisions(a[0], b[0], p, q, pendingBytes, index, sizes, maxBytes, universe);
      if Overflows(p, pendingBytes, a[0], bytes, maxBytes) && p != [] {
        PackForgetsOrder(a[1..], b[1..], [a[0]], [b[0]], bytes, index + 1, sizes, maxBytes, universe);
      } else {
        PackForgetsOrder(a[1..], b[1..], p + [a[0]], q + [b[0]], pendingBytes + bytes, index, sizes, maxBytes,
          universe);
      }
    }
  }

  lemma {:induction false} PackEnds(pending: seq<Component>, pendingBytes: nat, index: nat, sizes: Sizes, maxBytes: nat)
    ensures Pack([], pending, pendingBytes, index, sizes, maxBytes)
      == Ok(if pending == [] then [] else [Flush(pending, index)])
  {
  }

  /** The same measure, the same verdict on the component, the same choice to flush. */
  lemma SameDecisions(c: Component, d: Component, p: seq<Component>, q: seq<Component>,
                      pendingBytes: nat, index: nat, sizes: Sizes, maxBytes: nat, universe: seq<MemoryDraft>)
    requires Alike(c, d, universe) && Similar(p, q) && DrawnFrom(p, universe) && Keyed(universe)
    ensures var bytes := ComponentBytes(c, index, sizes);
      && bytes == ComponentBytes(d, index, sizes) && Breaks(c, bytes, maxBytes) == Breaks(d, bytes, maxBytes)
      && Overflows(p, pendingBytes, c, bytes, maxBytes) == Overflows(q, pendingBytes, d, bytes, maxBytes)
  {
    hide StableSort, Flush, Keyed, AllMemories, AllRelationships, Similar, DrawnFrom, Alike;
    SimilarOne(c, d, universe);
    SimilarFlush(p, q, universe, index);
  }

  lemma SameLength(a: seq<Component>, b: seq<Component>)
    requires Similar(a, b)
    ensures |a| == |b|
  {
  }

  lemma SimilarOne(c: Component, d: Component, universe: seq<MemoryDraft>)
    requires Alike(c, d, universe) && Keyed(universe)
    ensures StableSort(c.memories, MemoryLe) == StableSort(d.memories, MemoryLe) && |c.memories| == |d.memories|
    ensures c.relationships == d.relationships
  {
    SortDraftsForgetsOrder(c.memories, d.memories);
  }

  lemma {:induction false} TagCount(ms: seq<MemoryDraft>, roots: map<string, string>, tag: string, m: MemoryDraft)
    requires forall i :: 0 <= i < |ms| ==> ms[i].draftKey in roots
    ensures multiset(TagMemories(ms, roots))[(tag, m)] == if m.draftKey in roots && roots[m.draftKey] == tag
      then multiset(ms)[m] else 0
  {
    if ms != [] {
      var n := |ms| - 1;
      TagCount(ms[..n], roots, tag, m);
      assert ms == ms[..n] + [ms[n]];
      assert TagMemories(ms, roots) == TagMemories(ms[..n], roots) + [(roots[ms[n].draftKey], ms[n])];
    }
  }

  ghost predicate Rearranged(u: BatchUnit, v: BatchUnit) {
    multiset(u.memories) == multiset(v.memories) && u.relationships == v.relationships && u.snapshot == v.snapshot
  }

  lemma SameDrafts(u: BatchUnit, v: BatchUnit)
    requires Rearranged(u, v)
    ensures |u.memories| == |v.memories|
    ensures forall m :: m in u.memories <==> m in v.memories
    ensures KeySet(u) == KeySet(v) && forall k :: k in DraftKeys(u.memories) <==> k in DraftKeys(v.memories)
  {
    SameSize(u.memories, v.memories);
    forall m ensures m in u.memories <==> m in v.memories {
      assert m in u.memories <==> m in multiset(u.memories);
      assert m in v.memories <==> m in multiset(v.memories);
    }
    forall k ensures k in DraftKeys(u.memories) <==>
      exists m :: m in u.memories && m.draftKey == k { KeyOf(u.memories, k); }
    forall k ensures k in DraftKeys(v.memories) <==>
      exists m :: m in v.memories && m.draftKey == k { KeyOf(v.memories, k); }
  }

  lemma KeyOf(ms: seq<MemoryDraft>, k: string)
    ensures k in DraftKeys(ms) <==> exists m :: m in ms && m.draftKey == k
  {
    if k in DraftKeys(ms) {
      var i :| 0 <= i < |ms| && DraftKeys(ms)[i] == k;
      assert ms[i] in ms;
    }
    forall m | m in ms && m.draftKey == k ensures k in DraftKeys(ms) {
      var i :| 0 <= i < |ms| && ms[i] == m;
      assert DraftKeys(ms)[i] == k;
    }
  }

  lemma RearrangedStaysValid(u: BatchUnit, v: BatchUnit)
    requires Rearranged(u, v) && ValidUnit(u)
    ensures ValidUnit(v) && RootsOf(u) == RootsOf(v)
  {
    SameDrafts(u, v);
    DistinctBySize(DraftKeys(u.memories));
    DistinctBySize(DraftKeys(v.memories));
    assert Elements(DraftKeys(u.memories)) == Elements(DraftKeys(v.memories));
    assert Distinct(DraftKeys(v.memories));
    if v.snapshot.Some? {
      forall i | 0 <= i < |v.memories| ensures v.memories[i].externalKey.Some? {
        assert v.memories[i] in u.memories;
      }
    }
  }

  lemma MemoryKeysRooted(u: BatchUnit)
    requires ValidUnit(u)
    ensures forall i :: 0 <= i < |u.memories| ==> u.memories[i].draftKey in RootsOf(u)
    ensures forall i :: 0 <= i < |u.relationships| ==> u.relationships[i].from in RootsOf(u)
  {
    hide RootsOf;
    forall i | 0 <= i < |u.memories| ensures u.memories[i].draftKey in RootsOf(u) {
      assert DraftKeys(u.memories)[i] in DraftKeys(u.memories);
    }
  }

  lemma RearrangedTags(u: BatchUnit, v: BatchUnit)
    requires Rearranged(u, v) && ValidUnit(u) && ValidUnit(v) && RootsOf(u) == RootsOf(v)
    ensures multiset(TaggedMemories(u)) == multiset(TaggedMemories(v))
      && TaggedRelationships(u) == TaggedRelationships(v)
  {
    MemoryKeysRooted(u);
    MemoryKeysRooted(v);
    hide ValidUnit, RootsOf, KeySet;
    forall x ensures multiset(TaggedMemories(u))[x] == multiset(TaggedMemories(v))[x] {
      TagCount(u.memories, RootsOf(u), x.0, x.1);
      TagCount(v.memories, RootsOf(v), x.0, x.1);
    }
  }

  lemma SameRootOrder(a: seq<(string, MemoryDraft)>, b: seq<(string, MemoryDraft)>)
    requires multiset(a) == multiset(b)
    ensures RootOrder(a) == RootOrder(b)
  {
    forall x ensures x in Tags(a) <==> x in Tags(b) {
      TagOf(a, b, x);
      TagOf(b, a, x);
    }
    SameElements(FirstSeen(Tags(a)), FirstSeen(Tags(b)));
    LexIsOrder();
    SortForgetsOrder(FirstSeen(Tags(a)), FirstSeen(Tags(b)), LexLe);
  }

  lemma TagOf(a: seq<(string, MemoryDraft)>, b: seq<(string, MemoryDraft)>, x: string)
    requires multiset(a) == multiset(b)
    ensures x in Tags(a) ==> x in Tags(b)
  {
    if x in Tags(a) {
      var i :| 0 <= i < |a| && Tags(a)[i] == x;
      assert a[i] in multiset(a);
      assert a[i] in b;
      var j :| 0 <= j < |b| && b[j] == a[i];
      assert Tags(b)[j] == x;
    }
  }

  lemma SimilarFor(tm: seq<(string, MemoryDraft)>, tn: seq<(string, MemoryDraft)>,
      tr: seq<(string, RelationshipDraft)>, order: seq<string>)
    requires multiset(tm) == multiset(tn)
    ensures Similar(ComponentsFor(tm, tr, order), ComponentsFor(tn, tr, order))
    ensures DrawnFrom(ComponentsFor(tm, tr, order), Untagged(tm))
  {
    forall i | 0 <= i < |order|
      ensures multiset(Pick(tm, order[i])) == multiset(Pick(tn, order[i]))
      ensures forall m :: m in Pick(tm, order[i]) ==> m in Untagged(tm)
    {
      SimilarPicks(tm, tn, order[i]);
    }
  }

  lemma SimilarComponents(u: BatchUnit, v: BatchUnit)
    requires Rearranged(u, v) && ValidUnit(u) && ValidUnit(v) && RootsOf(u) == RootsOf(v)
    ensures Similar(Components(u), Components(v)) && DrawnFrom(Components(u), u.memories) && Keyed(u.memories)
  {
    hide ValidUnit, RootOrder, TaggedMemories, TaggedRelationships, Keyed, Similar, DrawnFrom, Rearranged, RootsOf,
      ComponentsFor;
    RearrangedTags(u, v);
    SameRootOrder(TaggedMemories(u), TaggedMemories(v));
    KeysIdentify(u);
    SimilarFor(TaggedMemories(u), TaggedMemories(v), TaggedRelationships(u), RootOrder(TaggedMemories(u)));
  }

  lemma {:induction false} SimilarPicks(tm: seq<(string, MemoryDraft)>, tn: seq<(string, MemoryDraft)>, tag: string)
    requires multiset(tm) == multiset(tn)
    ensures multiset(Pick(tm, tag)) == multiset(Pick(tn, tag))
    ensures forall m :: m in Pick(tm, tag) ==> m in Untagged(tm)
  {
    PickForgetsOrder(tm, tag);
    PickForgetsOrder(tn, tag);
    PickMembers(tm, tag);
    forall m | m in Pick(tm, tag) ensures m in Untagged(tm) {
      var i :| 0 <= i < |tm| && tm[i] == (tag, m);
      assert Untagged(tm)[i] == m;
    }
  }

  lemma KeysIdentify(u: BatchUnit)
    requires ValidUnit(u)
    ensures Keyed(u.memories)
  {
    forall x, y | x in u.memories && y in u.memories && x.draftKey == y.draftKey ensures x == y {
      var i :| 0 <= i < |u.memories| && u.memories[i] == x;
      var j :| 0 <= j < |u.memories| && u.memories[j] == y;
      assert DraftKeys(u.memories)[i] == DraftKeys(u.memories)[j];
    }
  }

  /** The split does not depend on the order the unit lists its memories in: roots, component order,
      packing decisions and batch contents all come out the same, and so does a refusal. */
  lemma SplitForgetsOrder(u: BatchUnit, v: BatchUnit, sizes: Sizes, maxBytes: nat)
    requires Rearranged(u, v)
    ensures Split(u, sizes, maxBytes) == Split(v, sizes, maxBytes)
  {
    hide ValidUnit, Components, Pack, Checked, Rearranged, Similar, DrawnFrom, Keyed;
    if ValidUnit(u) {
      RearrangedStaysValid(u, v);
      SimilarComponents(u, v);
      SimilarEmpty(u.memories);
      PackForgetsOrder(Components(u), Components(v), [], [], 0, 0, sizes, maxBytes, u.memories);
    } else if ValidUnit(v) {
      RearrangedBack(u, v);
      RearrangedStaysValid(v, u);
    }
  }

  lemma SimilarEmpty(universe: seq<MemoryDraft>)
    ensures Similar([], []) && DrawnFrom([], universe)
  {
  }

  lemma RearrangedBack(u: BatchUnit, v: BatchUnit)
    requires Rearranged(u, v)
    ensures Rearranged(v, u)
  {
  }

  // ----- small units are refused for bytes only

  ghost predicate WithinCounts(c: Component) {
    |c.memories| <= MAX_MEMORIES_PER_BATCH && |c.relationships| <= MAX_EDGES_PER_BATCH
  }

  ghost predicate ForBytes(e: SdkError) { e.Unsplittable? && e.bound == MaxBytes }

  lemma BreaksForBytes(c: Component, bytes: nat, maxBytes: nat)
    requires WithinCounts(c)
    ensures Breaks(c, bytes, maxBytes).Some? ==> ForBytes(Breaks(c, bytes, maxBytes).value)
  {
    hide SortedKeys;
  }

  lemma {:induction false} PackRefusesBytesOnly(cs: seq<Component>, pending: seq<Component>, pendingBytes: nat,
      index: nat, sizes: Sizes, maxBytes: nat)
    requires forall i :: 0 <= i < |cs| ==> WithinCounts(cs[i])
    ensures var r := Pack(cs, pending, pendingBytes, index, sizes, maxBytes); r.Err? ==> ForBytes(r.error)
    decreases |cs|
  {
    if cs != [] {
      hide Pack, ComponentBytes, Flush, Overflows, Breaks, WithinCounts, ForBytes;
      PackUnfolds(cs, pending, pendingBytes, index, sizes, maxBytes);
      var bytes := ComponentBytes(cs[0], index, sizes);
      BreaksForBytes(cs[0], bytes, maxBytes);
      PackRefusesBytesOnly(cs[1..], [cs[0]], bytes, index + 1, sizes, maxBytes);
      PackRefusesBytesOnly(cs[1..], pending + [cs[0]], pendingBytes + bytes, index, sizes, maxBytes);
    }
  }

  lemma {:induction false} PickFits<T>(items: seq<(string, T)>, tag: string)
    ensures |Pick(items, tag)| <= |items|
  {
    if items != [] { PickFits(items[..|items| - 1], tag); }
  }

  lemma {:induction false} OversizedIsBytes(bs: seq<Batch>, sizes: Sizes, maxBytes: nat)
    ensures Oversized(bs, sizes, maxBytes).Some? ==>
      Oversized(bs, sizes, maxBytes).value.Unsplittable? && Oversized(bs, sizes, maxBytes).value.bound == MaxBytes
  {
    if bs != [] { OversizedIsBytes(bs[1..], sizes, maxBytes); }
  }

  /** A valid unit none of whose components has more relationships than one batch may carry is never refused for
      a count. */
  lemma SmallUnitRefusedForBytesOnly(unit: BatchUnit, sizes: Sizes, maxBytes: nat)
    requires ValidUnit(unit)
    requires forall i :: 0 <= i < |Components(unit)| ==> |Components(unit)[i].relationships| <= MAX_EDGES_PER_BATCH
    ensures var r := Split(unit, sizes, maxBytes); r.Err? ==> r.error.Unsplittable? && r.error.bound == MaxBytes
  {
    var cs := Components(unit);
    forall i | 0 <= i < |cs| ensures WithinCounts(cs[i]) { ComponentSize(unit, i); }
    hide ValidUnit, Components;
    PackRefusesBytesOnly(cs, [], 0, 0, sizes, maxBytes);
    var packed := Pack(cs, [], 0, 0, sizes, maxBytes);
    if packed.Ok? { OversizedIsBytes(packed.value, sizes, maxBytes); }
    hide Pack, Oversized;
  }

  lemma ComponentFits(unit: BatchUnit, i: nat)
    requires ValidUnit(unit) && i < |Components(unit)|
    ensures |Components(unit)[i].relationships| <= |unit.relationships|
  {
    PickFits(TaggedRelationships(unit), RootOrder(TaggedMemories(unit))[i]);
    hide ValidUnit, RootOrder;
  }
}
