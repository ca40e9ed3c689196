/** How full the batches of a successful split are, and what else can refuse one. */
module Packing {
  import opened Common
  import opened Sorting
  import opened Keys
  import opened Grouping
  import opened Splitter
  import UnionFind

  // ----- what a component is

  ghost predicate Together(unit: BatchUnit, x: MemoryDraft, y: MemoryDraft)
    requires ValidUnit(unit)
  {
    exists i :: 0 <= i < |Components(unit)| && x in Components(unit)[i].memories && y in Components(unit)[i].memories
  }

  /** Components are the connected parts of the unit, no more and no less: two drafts are in one component exactly when
      a chain of relationships, followed either way, joins them. */
  lemma TogetherIffJoined(unit: BatchUnit, x: MemoryDraft, y: MemoryDraft)
    requires ValidUnit(unit) && x in unit.memories && y in unit.memories
    ensures Together(unit, x, y) <==> UnionFind.Joined(EdgesOf(unit.relationships), x.draftKey, y.draftKey)
  {
    KeyIsKnown(unit, x);
    KeyIsKnown(unit, y);
    UnionFind.SameRootIffJoined(KeySet(unit), EdgesOf(unit.relationships), x.draftKey, y.draftKey);
    var (roots, order) := (RootsOf(unit), RootOrder(TaggedMemories(unit)));
    hide UnionFind.Joined, UnionFind.Roots, ValidUnit, Components, RootsOf, RootOrder, TaggedMemories;
    ComponentOf(unit, x);
    ComponentOf(unit, y);
    if roots[x.draftKey] == roots[y.draftKey] {
      var i :| 0 <= i < |order| && order[i] == roots[x.draftKey];
      assert x in Components(unit)[i].memories && y in Components(unit)[i].memories;
    }
  }

  lemma KeyIsKnown(unit: BatchUnit, x: MemoryDraft)
    requires ValidUnit(unit) && x in unit.memories
    ensures x.draftKey in KeySet(unit) && x.draftKey in RootsOf(unit)
  {
    var j :| 0 <= j < |unit.memories| && unit.memories[j] == x;
    assert DraftKeys(unit.memories)[j] == x.draftKey;
  }

  lemma TagOf(unit: BatchUnit, x: MemoryDraft, tag: string)
    requires ValidUnit(unit) && x in unit.memories
    ensures x.draftKey in RootsOf(unit)
    ensures (tag, x) in TaggedMemories(unit) <==> tag == RootsOf(unit)[x.draftKey]
  {
    KeyIsKnown(unit, x);
    hide ValidUnit, RootsOf;
    var j :| 0 <= j < |unit.memories| && unit.memories[j] == x;
    assert TaggedMemories(unit)[j] == (RootsOf(unit)[x.draftKey], x);
  }

  /** A draft is in the component of its root, and in no other. */
  lemma ComponentOf(unit: BatchUnit, x: MemoryDraft)
    requires ValidUnit(unit) && x in unit.memories
    ensures x.draftKey in RootsOf(unit)
    ensures var (order, root) := (RootOrder(TaggedMemories(unit)), RootsOf(unit)[x.draftKey]);
      && root in order && |Components(unit)| == |order|
      && forall i :: 0 <= i < |order| ==> (x in Components(unit)[i].memories <==> order[i] == root)
  {
    hide ValidUnit, RootsOf, TaggedMemories, RootOrder, Pick;
    var tm := TaggedMemories(unit);
    KeyIsKnown(unit, x);
    var root := RootsOf(unit)[x.draftKey];
    TagOf(unit, x, root);
    var n :| 0 <= n < |tm| && tm[n] == (root, x);
    MemoryRoots(tm);
    assert tm[n].0 in RootOrder(tm);
    forall i | 0 <= i < |RootOrder(tm)| ensures x in Components(unit)[i].memories <==> RootOrder(tm)[i] == root {
      PickMembers(tm, RootOrder(tm)[i]);
      TagOf(unit, x, RootOrder(tm)[i]);
    }
  }

  // ----- greedy

  ghost predicate SortedByKey(ms: seq<MemoryDraft>) {
    forall i, j :: 0 <= i < j < |ms| ==> LexLe(ms[i].draftKey, ms[j].draftKey)
  }

  /** By source key, then target key, then kind. */
  ghost predicate SortedByEnds(rs: seq<RelationshipDraft>) {
    forall i, j :: 0 <= i < j < |rs| ==>
      var (a, b) := (rs[i], rs[j]);
      if a.from != b.from then LexLe(a.from, b.from)
      else if a.to != b.to then LexLe(a.to, b.to)
      else LexLe(a.kind, b.kind)
  }

  /** The batch holds exactly the rows of these components, each kind in order. */
  ghost predicate Holds(b: Batch, g: seq<Component>) {
    && multiset(b.memories) == multiset(AllMemories(g)) && SortedByKey(b.memories)
    && multiset(b.relationships) == multiset(AllRelationships(g)) && SortedByEnds(b.relationships)
  }

  lemma RelationshipOrder()
    ensures TotalPreorder(RelationshipLe)
  {
    LexIsOrder();
    forall a, b ensures RelationshipLe(a, b) || RelationshipLe(b, a) { EndsTotal(a, b); }
    forall a, b, c | RelationshipLe(a, b) && RelationshipLe(b, c) ensures RelationshipLe(a, c) {
      EndsTransitive(a, b, c);
    }
  }

  lemma EndsTotal(a: RelationshipDraft, b: RelationshipDraft)
    ensures RelationshipLe(a, b) || RelationshipLe(b, a)
  {
    LexTotal(a.from, b.from);
    LexTotal(a.to, b.to);
    LexTotal(a.kind, b.kind);
    hide LexLe;
  }

  lemma EndsTransitive(a: RelationshipDraft, b: RelationshipDraft, c: RelationshipDraft)
    requires RelationshipLe(a, b) && RelationshipLe(b, c)
    ensures RelationshipLe(a, c)
  {
    hide LexLe;
    KeyTransitive(a.from, b.from, c.from);
    KeyTransitive(a.to, b.to, c.to);
    KeyTransitive(a.kind, b.kind, c.kind);
  }

  lemma {:induction false} KeyTransitive(a: string, b: string, c: string)
    ensures LexLe(a, b) && LexLe(b, c) ==> LexLe(a, c)
    ensures LexLe(a, b) && LexLe(b, a) ==> a == b
  {
    if LexLe(a, b) && LexLe(b, c) { LexTransitive(a, b, c); }
    if LexLe(a, b) && LexLe(b, a) { LexAntisymmetric(a, b); }
  }

  lemma FlushHolds(g: seq<Component>, k: nat)
    ensures Holds(Flush(g, k), g)
  {
    MemoryOrder();
    RelationshipOrder();
    StableSortSorts(AllMemories(g), MemoryLe);
    StableSortSorts(AllRelationships(g), RelationshipLe);
    hide StableSort, AllMemories, AllRelationships, LexLe;
  }

  lemma MemoryOrder()
    ensures TotalPreorder(MemoryLe)
  {
    LexIsOrder();
    hide LexLe;
    forall a: MemoryDraft, b ensures MemoryLe(a, b) || MemoryLe(b, a) {}
  }

  lemma {:induction false} HoldsCounts(b: Batch, g: seq<Component>)
    requires Holds(b, g)
    ensures |b.memories| == |AllMemories(g)| && |b.relationships| == |AllRelationships(g)|
  {
    assert |b.memories| == |multiset(b.memories)| && |AllMemories(g)| == |multiset(AllMemories(g))|;
    assert |b.relationships| == |multiset(b.relationships)| && |AllRelationships(g)| == |multiset(AllRelationships(g))|;
    hide AllMemories, AllRelationships;
  }

  /** The packing of a unit: its components in order, cut into groups, one per batch. */
  ghost predicate Packs(unit: BatchUnit, bs: seq<Batch>, groups: seq<seq<Component>>)
    requires ValidUnit(unit)
  {
    && |groups| == |bs| && Flat(groups) == Components(unit)
    && forall i :: 0 <= i < |bs| ==> groups[i] != [] && Holds(bs[i], groups[i])
  }

  /** Batch `i` could not have taken the component that opens the next one. */
  ghost predicate NoRoom(bs: seq<Batch>, groups: seq<seq<Component>>, i: nat, sizes: Sizes, maxBytes: nat)
    requires i + 1 < |bs| == |groups| && groups[i + 1] != []
  {
    var c := groups[i + 1][0];
    || |bs[i].memories| + |c.memories| > MAX_MEMORIES_PER_BATCH
    || |bs[i].relationships| + |c.relationships| > MAX_EDGES_PER_BATCH
    || Weight(groups[i], i, sizes) + Estimated(c, i, sizes) > maxBytes
  }

  /** A successful split is greedy: its components fill the batches in order, no batch was taken to weigh too much, and
      none was closed while the next component still fitted under all three ceilings. */
  lemma SplitIsGreedy(unit: BatchUnit, sizes: Sizes, maxBytes: nat) returns (groups: seq<seq<Component>>)
    requires Split(unit, sizes, maxBytes).Ok?
    ensures Packs(unit, Split(unit, sizes, maxBytes).value, groups)
    ensures forall i :: 0 <= i < |groups| ==> Weight(groups[i], i, sizes) <= maxBytes
    ensures forall i :: 0 <= i < |groups| - 1 ==> NoRoom(Split(unit, sizes, maxBytes).value, groups, i, sizes, maxBytes)
  {
    var bs := Split(unit, sizes, maxBytes).value;
    assert ValidUnit(unit) && Pack(Components(unit), [], 0, 0, sizes, maxBytes) == Ok(bs);
    hide Components, ValidUnit, Pack, Split, Flush, Weight, Estimated, Holds, Flat;
    groups := PackedGroups(Components(unit), bs, sizes, maxBytes);
  }

  lemma PackedGroups(cs: seq<Component>, bs: seq<Batch>, sizes: Sizes, maxBytes: nat)
      returns (groups: seq<seq<Component>>)
    requires Pack(cs, [], 0, 0, sizes, maxBytes) == Ok(bs)
    ensures |groups| == |bs| && Flat(groups) == cs
    ensures forall i :: 0 <= i < |bs| ==>
      groups[i] != [] && Holds(bs[i], groups[i]) && Weight(groups[i], i, sizes) <= maxBytes
    ensures forall i :: 0 <= i < |groups| - 1 ==> NoRoom(bs, groups, i, sizes, maxBytes)
  {
    WeightNone(0, sizes);
    hide Pack, Flush, Weight, Estimated, Holds, Flat, AllMemories, AllRelationships;
    assert AllMemories([]) == [] && AllRelationships([]) == [] by { NoRows(); }
    groups := PackShape(cs, [], 0, 0, sizes, maxBytes);
    assert [] + cs == cs;
    forall i | 0 <= i < |bs|
      ensures Holds(bs[i], groups[i])
      ensures |bs[i].memories| == |AllMemories(groups[i])| && |bs[i].relationships| == |AllRelationships(groups[i])|
    {
      FlushHolds(groups[i], i);
      HoldsCounts(bs[i], groups[i]);
    }
  }

  lemma NoRows()
    ensures AllMemories([]) == [] && AllRelationships([]) == []
  {
  }

  // ----- what fits together goes together

  /** All components of the unit fit one batch. */
  ghost predicate FitsOne(unit: BatchUnit, sizes: Sizes, maxBytes: nat)
    requires ValidUnit(unit)
  {
    && |unit.memories| <= MAX_MEMORIES_PER_BATCH && |unit.relationships| <= MAX_EDGES_PER_BATCH
    && Weight(Components(unit), 0, sizes) <= maxBytes
  }

  lemma {:induction false} WeightGrows(g: seq<Component>, n: nat, sizes: Sizes)
    requires n <= |g|
    ensures Weight(g[..n], 0, sizes) <= Weight(g, 0, sizes)
  {
    hide Estimated;
    if n < |g| {
      WeightGrows(g[..|g| - 1], n, sizes);
      assert g[..|g| - 1][..n] == g[..n];
    } else {
      assert g[..n] == g;
    }
  }

  lemma {:induction false} OpeningGroup(groups: seq<seq<Component>>, cs: seq<Component>, sizes: Sizes)
    requires |groups| >= 2 && Flat(groups) == cs && groups[0] != [] && groups[1] != []
    ensures var (g, c) := (groups[0], groups[1][0]);
      && |AllMemories(g)| + |c.memories| <= |AllMemories(cs)|
      && |AllRelationships(g)| + |c.relationships| <= |AllRelationships(cs)|
      && Weight(g, 0, sizes) + Estimated(c, 0, sizes) <= Weight(cs, 0, sizes)
  {
    var (g, c) := (groups[0], groups[1][0]);
    FlatFirst(groups);
    FlatFirst(groups[1..]);
    var rest := groups[1][1..] + Flat(groups[2..]);
    assert groups[1..][1..] == groups[2..];
    hide Flat, Weight, Estimated, AllMemories, AllRelationships;
    assert groups[1] == [c] + groups[1][1..];
    assert cs == g + [c] + rest;
    AllConcat(g + [c], rest);
    AllConcat(g, [c]);
    AllOne(c);
    assert cs[..|g| + 1] == g + [c];
    WeightGrows(cs, |g| + 1, sizes);
    WeightMore(g, c, 0, sizes);
  }

  lemma SameCount<T>(a: seq<T>, b: seq<T>)
    requires multiset(a) == multiset(b)
    ensures |a| == |b|
  {
    assert |a| == |multiset(a)| && |b| == |multiset(b)|;
  }

  lemma UnitCounts(unit: BatchUnit)
    requires ValidUnit(unit)
    ensures |AllMemories(Components(unit))| == |unit.memories|
    ensures |AllRelationships(Components(unit))| == |unit.relationships|
  {
    ComponentsPartition(unit);
    SameCount(AllMemories(Components(unit)), unit.memories);
    SameCount(AllRelationships(Components(unit)), unit.relationships);
    hide Components, ValidUnit, AllMemories, AllRelationships;
  }

  /** Two groups cannot come of components that fit one batch. */
  lemma {:induction false} RoomForMore(bs: seq<Batch>, groups: seq<seq<Component>>, cs: seq<Component>, sizes: Sizes,
      maxBytes: nat)
    requires |bs| == |groups| >= 2 && Flat(groups) == cs && groups[0] != [] && groups[1] != []
      && Holds(bs[0], groups[0])
    requires |AllMemories(cs)| <= MAX_MEMORIES_PER_BATCH && |AllRelationships(cs)| <= MAX_EDGES_PER_BATCH
    requires Weight(cs, 0, sizes) <= maxBytes
    ensures !NoRoom(bs, groups, 0, sizes, maxBytes)
  {
    hide Flat, Weight, Estimated, AllMemories, AllRelationships, Holds;
    OpeningGroup(groups, cs, sizes);
    HoldsCounts(bs[0], groups[0]);
  }

  /** If a unit whose components fit one batch splits at all, it is one batch at most. */
  lemma FittingUnitIsOneBatch(unit: BatchUnit, sizes: Sizes, maxBytes: nat)
    requires ValidUnit(unit) && FitsOne(unit, sizes, maxBytes) && Split(unit, sizes, maxBytes).Ok?
    ensures |Split(unit, sizes, maxBytes).value| <= 1
  {
    hide Components, ValidUnit, Split, Flat, Weight, AllMemories, AllRelationships, Holds, NoRoom;
    var groups := SplitIsGreedy(unit, sizes, maxBytes);
    UnitCounts(unit);
    if |groups| >= 2 { RoomForMore(Split(unit, sizes, maxBytes).value, groups, Components(unit), sizes, maxBytes); }
  }

  // ----- what a refusal for bytes is about

  /** Some component alone is estimated over the budget, at some index. */
  ghost predicate TooHeavy(cs: seq<Component>, sizes: Sizes, maxBytes: nat) {
    exists i: nat, k: nat :: i < |cs| && Estimated(cs[i], k, sizes) > maxBytes
  }

  lemma {:induction false} PackRefusesHeavy(cs: seq<Component>, pending: seq<Component>, pendingBytes: nat, index: nat,
      sizes: Sizes, maxBytes: nat)
    ensures var r := Pack(cs, pending, pendingBytes, index, sizes, maxBytes);
      r.Err? && ForBytes(r.error) ==> TooHeavy(cs, sizes, maxBytes)
    decreases |cs|
  {
    if cs != [] {
      PackUnfolds(cs, pending, pendingBytes, index, sizes, maxBytes);
      var bytes := ComponentBytes(cs[0], index, sizes);
      assert bytes == Estimated(cs[0], index, sizes);
      PackRefusesHeavy(cs[1..], [cs[0]], bytes, index + 1, sizes, maxBytes);
      PackRefusesHeavy(cs[1..], pending + [cs[0]], pendingBytes + bytes, index, sizes, maxBytes);
      hide Pack, Flush, Overflows, SortedKeys, Estimated, ComponentBytes;
      if TooHeavy(cs[1..], sizes, maxBytes) {
        var i: nat, k: nat :| i < |cs| - 1 && Estimated(cs[1..][i], k, sizes) > maxBytes;
        assert Estimated(cs[i + 1], k, sizes) > maxBytes;
      }
    }
  }

  /** A batch, once emitted, is over the budget, whatever was estimated. */
  ghost predicate EmittedOver(cs: seq<Component>, sizes: Sizes, maxBytes: nat) {
    exists bs: seq<Batch>, groups: seq<seq<Component>>, i: nat ::
      && |groups| == |bs| && Flat(groups) == cs && i < |bs|
      && Holds(bs[i], groups[i]) && Weight(groups[i], i, sizes) <= maxBytes && sizes.batch(bs[i]) > maxBytes
  }

  lemma {:induction false} OversizedAt(bs: seq<Batch>, sizes: Sizes, maxBytes: nat) returns (i: nat)
    requires Oversized(bs, sizes, maxBytes).Some?
    ensures i < |bs| && sizes.batch(bs[i]) > maxBytes
  {
    i := 0;
    if sizes.batch(bs[0]) <= maxBytes {
      i := OversizedAt(bs[1..], sizes, maxBytes);
      i := i + 1;
    }
  }

  /** A valid unit is refused for bytes only for a component that is estimated over the budget by itself, or for a
      greedily packed batch that turns out to be over it. */
  lemma BytesRefusalHasCause(unit: BatchUnit, sizes: Sizes, maxBytes: nat)
    requires ValidUnit(unit) && Split(unit, sizes, maxBytes).Err? && ForBytes(Split(unit, sizes, maxBytes).error)
    ensures TooHeavy(Components(unit), sizes, maxBytes) || EmittedOver(Components(unit), sizes, maxBytes)
  {
    var packed := Pack(Components(unit), [], 0, 0, sizes, maxBytes);
    PackRefusesHeavy(Components(unit), [], 0, 0, sizes, maxBytes);
    hide Components, ValidUnit, Pack, Flat, Weight, Holds, TooHeavy;
    if packed.Ok? {
      var i := OversizedAt(packed.value, sizes, maxBytes);
      var groups := PackedGroups(Components(unit), packed.value, sizes, maxBytes);
      assert Holds(packed.value[i], groups[i]) && Weight(groups[i], i, sizes) <= maxBytes;
    }
  }
}
