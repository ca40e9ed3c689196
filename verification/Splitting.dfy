/** `split_unit` as it runs: a parent map compressed in place, components gathered in a map, and one
    packing loop over running counters. Its result is `Splitter.Split`. */
module Splitting {
  import opened Common
  import opened Sorting
  import opened Keys
  import opened Grouping
  import opened Splitter
  import UnionFind

  /** Pre-wire validation. */
  method ValidateUnit(unit: BatchUnit) returns (ok: bool)
    ensures ok <==> ValidUnit(unit)
  {
    var keys: set<string> := {};
    for i := 0 to |unit.memories|
      invariant keys == Elements(DraftKeys(unit.memories)[..i])
    {
      assert DraftKeys(unit.memories)[..i + 1] == DraftKeys(unit.memories)[..i] + [unit.memories[i].draftKey];
      keys := keys + {unit.memories[i].draftKey};
    }
    assert DraftKeys(unit.memories)[..|unit.memories|] == DraftKeys(unit.memories);
    DistinctBySize(DraftKeys(unit.memories));
    if |keys| != |unit.memories| {
      return false;
    }
    for i := 0 to |unit.relationships|
      invariant forall j :: 0 <= j < i ==> unit.relationships[j].from in keys && unit.relationships[j].to in keys
    {
      if unit.relationships[i].from !in keys || unit.relationships[i].to !in keys {
        return false;
      }
    }
    if unit.snapshot.Some? {
      for i := 0 to |unit.memories|
        invariant forall j :: 0 <= j < i ==> unit.memories[j].externalKey.Some?
      {
        if unit.memories[i].externalKey.None? {
          return false;
        }
      }
    }
    return true;
  }

  function Member(components: map<string, Component>, root: string): Component {
    if root in components then components[root] else Component([], [])
  }

  /** The components gathered so far are the groups of what has been read so far. */
  ghost predicate Gathered(components: map<string, Component>, listed: seq<string>, tm: seq<(string, MemoryDraft)>,
      tr: seq<(string, RelationshipDraft)>) {
    && listed == FirstSeen(Tags(tm)) && components.Keys == Elements(listed)
    && forall root :: root in components ==> components[root] == Component(Pick(tm, root), Pick(tr, root))
  }

  lemma {:induction false} PickAbsent(tm: seq<(string, MemoryDraft)>, root: string)
    requires root !in Tags(tm)
    ensures Pick(tm, root) == []
  {
    if tm != [] {
      var n := |tm| - 1;
      assert Tags(tm)[n] == tm[n].0;
      assert Tags(tm[..n]) == Tags(tm)[..n];
      PickAbsent(tm[..n], root);
    }
  }

  lemma GatherMemory(components: map<string, Component>, listed: seq<string>, tm: seq<(string, MemoryDraft)>,
      root: string, m: MemoryDraft)
    requires Gathered(components, listed, tm, [])
    ensures var c := Member(components, root);
      Gathered(components[root := c.(memories := c.memories + [m])],
               if root in components then listed else listed + [root], tm + [(root, m)], [])
  {
    hide Pick, FirstSeen, Tags, Elements;
    PickStep(tm, root, m);
    TagsStep(tm, root, m);
    ElementsStep(listed, root);
    PickKnown(components, listed, tm, root);
  }

  lemma ElementsStep(listed: seq<string>, root: string)
    ensures Elements(listed + [root]) == Elements(listed) + {root}
    ensures root in Elements(listed) <==> root in listed
  {
  }

  lemma {:induction false} PickKnown(components: map<string, Component>, listed: seq<string>,
      tm: seq<(string, MemoryDraft)>, root: string)
    requires Gathered(components, listed, tm, [])
    ensures Member(components, root) == Component(Pick(tm, root), [])
    ensures Pick<RelationshipDraft>([], root) == []
  {
    if root !in components { PickAbsent(tm, root); }
  }

  lemma {:induction false} PickStep<T>(items: seq<(string, T)>, tag: string, item: T)
    ensures Pick(items + [(tag, item)], tag) == Pick(items, tag) + [item]
    ensures forall other :: other != tag ==> Pick(items + [(tag, item)], other) == Pick(items, other)
  {
    assert (items + [(tag, item)])[..|items|] == items;
  }

  lemma TagsStep<T>(items: seq<(string, T)>, tag: string, item: T)
    ensures var (before, after) := (FirstSeen(Tags(items)), FirstSeen(Tags(items + [(tag, item)])));
      after == if tag in before then before else before + [tag]
  {
    assert Tags(items + [(tag, item)]) == Tags(items) + [tag];
    assert (Tags(items) + [tag])[..|items|] == Tags(items);
  }

  lemma GatherRelationship(components: map<string, Component>, listed: seq<string>, tm: seq<(string, MemoryDraft)>,
                           tr: seq<(string, RelationshipDraft)>, root: string, r: RelationshipDraft)
    requires Gathered(components, listed, tm, tr) && root in components
    ensures Gathered(components[root := components[root].(relationships := components[root].relationships + [r])],
      listed, tm, tr + [(root, r)])
  {
    assert (tr + [(root, r)])[..|tr|] == tr;
  }

  lemma EndpointsKnown(unit: BatchUnit)
    requires ValidUnit(unit)
    ensures UnionFind.Endpoints(KeySet(unit), EdgesOf(unit.relationships))
    ensures RootsOf(unit) == UnionFind.Roots(KeySet(unit), EdgesOf(unit.relationships))
  {
  }

  lemma GatherNothing()
    ensures Gathered(map[], [], [], [])
  {
    assert Tags<MemoryDraft>([]) == [];
  }

  lemma ForestKeys(parent: map<string, string>, roots: map<string, string>, depth: map<string, nat>)
    requires UnionFind.Forest(parent, roots, depth)
    ensures parent.Keys == roots.Keys
  {
  }

  /** Reads the memories into the components of their roots. */
  method GatherMemories(ms: seq<MemoryDraft>, parent0: map<string, string>, ghost tm: seq<(string, MemoryDraft)>,
                        ghost roots: map<string, string>, ghost depth: map<string, nat>)
    returns (components: map<string, Component>, listed: seq<string>, parent: map<string, string>)
    requires UnionFind.Forest(parent0, roots, depth) && |tm| == |ms|
    requires forall i :: 0 <= i < |ms| ==> ms[i].draftKey in roots && tm[i] == (roots[ms[i].draftKey], ms[i])
    ensures UnionFind.Forest(parent, roots, depth) && Gathered(components, listed, tm, [])
  {
    hide Gathered, UnionFind.Forest;
    parent, components, listed := parent0, map[], [];
    assert tm[..0] == [];
    GatherNothing();
    ForestKeys(parent, roots, depth);
    for i := 0 to |ms|
      invariant UnionFind.Forest(parent, roots, depth) && Gathered(components, listed, tm[..i], [])
      invariant parent.Keys == roots.Keys
    {
      var root;
      root, parent := UnionFind.Find(parent, ms[i].draftKey, roots, depth);
      ForestKeys(parent, roots, depth);
      GatherMemory(components, listed, tm[..i], root, ms[i]);
      assert tm[..i + 1] == tm[..i] + [(root, ms[i])];
      listed := if root in components then listed else listed + [root];
      var c := Member(components, root);
      components := components[root := c.(memories := c.memories + [ms[i]])];
    }
    assert tm[..|ms|] == tm;
  }

  /** Reads the relationships into the components their endpoints already made. */
  method GatherRelationships(rs: seq<RelationshipDraft>, parent0: map<string, string>,
      components0: map<string, Component>,
                             ghost listed: seq<string>, ghost tm: seq<(string, MemoryDraft)>,
                                 ghost tr: seq<(string, RelationshipDraft)>,
                             ghost roots: map<string, string>, ghost depth: map<string, nat>)
    returns (components: map<string, Component>)
    requires UnionFind.Forest(parent0, roots, depth) && Gathered(components0, listed, tm, []) && |tr| == |rs|
    requires forall i :: 0 <= i < |rs| ==>
      rs[i].from in roots && tr[i] == (roots[rs[i].from], rs[i]) && tr[i].0 in listed
    ensures Gathered(components, listed, tm, tr)
  {
    var parent := parent0;
    components := components0;
    assert tr[..0] == [];
    for i := 0 to |rs|
      invariant UnionFind.Forest(parent, roots, depth) && Gathered(components, listed, tm, tr[..i])
    {
      hide UnionFind.Linked;
      var root;
      root, parent := UnionFind.Find(parent, rs[i].from, roots, depth);
      GatherRelationship(components, listed, tm, tr[..i], root, rs[i]);
      assert tr[..i + 1] == tr[..i] + [(root, rs[i])];
      var c := components[root];
      components := components[root := c.(relationships := c.relationships + [rs[i]])];
    }
    assert tr[..|rs|] == tr;
  }

  lemma RootsListed(unit: BatchUnit)
    requires ValidUnit(unit)
    ensures forall i :: 0 <= i < |TaggedRelationships(unit)| ==>
      TaggedRelationships(unit)[i].0 in FirstSeen(Tags(TaggedMemories(unit)))
  {
    RelationshipRoots(unit);
    RootOrderCovers(TaggedMemories(unit));
    hide ValidUnit, TaggedMemories, TaggedRelationships, RootOrder;
  }

  function Listing(components: map<string, Component>, order: seq<string>): (cs: seq<Component>)
    ensures |cs| == |order| && forall i :: 0 <= i < |order| ==> cs[i] == Member(components, order[i])
  {
    seq(|order|, i requires 0 <= i < |order| => Member(components, order[i]))
  }

  /** An ordered walk over gathered components is the reference listing. */
  lemma {:induction false} ListingIsComponents(components: map<string, Component>, listed: seq<string>,
      tm: seq<(string, MemoryDraft)>,
      tr: seq<(string, RelationshipDraft)>)
    requires Gathered(components, listed, tm, tr)
    ensures Listing(components, StableSort(listed, LexLe)) == ComponentsFor(tm, tr, RootOrder(tm))
  {
    RootOrderCovers(tm);
    var order := RootOrder(tm);
    forall i | 0 <= i < |order| ensures Member(components, order[i]) == ComponentsFor(tm, tr, order)[i] {
      assert order[i] in Tags(tm);
      assert order[i] in listed;
    }
  }

  /** Every draft is tagged with the root of its key. */
  lemma TagsFit(unit: BatchUnit)
    requires ValidUnit(unit)
    ensures var (tm, ms, roots) := (TaggedMemories(unit), unit.memories, RootsOf(unit));
      |tm| == |ms| && forall i :: 0 <= i < |ms| ==> ms[i].draftKey in roots && tm[i] == (roots[ms[i].draftKey], ms[i])
    ensures var (tr, rs, roots) := (TaggedRelationships(unit), unit.relationships, RootsOf(unit));
      |tr| == |rs| && forall i :: 0 <= i < |rs| ==> rs[i].from in roots && tr[i] == (roots[rs[i].from], rs[i])
  {
    var (tm, tr) := (TaggedMemories(unit), TaggedRelationships(unit));
    assert Untagged(tm) == unit.memories && Untagged(tr) == unit.relationships;
    hide ValidUnit, RootsOf, TaggedMemories, TaggedRelationships;
  }

  /** Union-find, then one pass over the memories and one over the relationships. */
  method Gather(unit: BatchUnit) returns (cs: seq<Component>)
    requires ValidUnit(unit)
    ensures cs == Components(unit)
  {
    hide ValidUnit, RootsOf, TaggedMemories, TaggedRelationships, ComponentsFor, RootOrder, Listing, Gathered,
      FirstSeen, Tags,
      UnionFind.Forest, UnionFind.Endpoints, UnionFind.Roots, StableSort;
    ghost var (tm, tr, roots) := (TaggedMemories(unit), TaggedRelationships(unit), RootsOf(unit));
    EndpointsKnown(unit);
    RootsListed(unit);
    TagsFit(unit);
    var parent, depth := UnionFind.WeldAll(KeySet(unit), EdgesOf(unit.relationships));
    var components, listed;
    components, listed, parent := GatherMemories(unit.memories, parent, tm, roots, depth);
    GatheredListing(components, listed, tm);
    components := GatherRelationships(unit.relationships, parent, components, listed, tm, tr, roots, depth);
    ListingIsComponents(components, listed, tm, tr);
    cs := Listing(components, StableSort(listed, LexLe));
  }

  lemma GatheredListing(components: map<string, Component>, listed: seq<string>, tm: seq<(string, MemoryDraft)>)
    requires Gathered(components, listed, tm, [])
    ensures listed == FirstSeen(Tags(tm))
  {
  }

  ghost function After(out: seq<Batch>, rest: Result<seq<Batch>, SdkError>): Result<seq<Batch>, SdkError> {
    match rest
    case Err(e) => Err(e)
    case Ok(bs) => Ok(out + bs)
  }

  lemma AfterNothing(r: Result<seq<Batch>, SdkError>)
    ensures After([], r) == r
  {
    if r.Ok? { assert [] + r.value == r.value; }
  }

  lemma AfterMore(out: seq<Batch>, b: Batch, r: Result<seq<Batch>, SdkError>)
    ensures After(out, After([b], r)) == After(out + [b], r)
  {
    if r.Ok? { assert out + ([b] + r.value) == out + [b] + r.value; }
  }

  /** The packing loop over its running counters. */
  method PackComponents(cs: seq<Component>, sizes: Sizes, maxBytes: nat) returns (r: Result<seq<Batch>, SdkError>)
    ensures r == Pack(cs, [], 0, 0, sizes, maxBytes)
  {
    hide Flush, ComponentBytes, Breaks;
    var out: seq<Batch>, pending: seq<Component> := [], [];
    var pendingBytes, pendingMemories, pendingEdges, index := 0, 0, 0, 0;
    assert cs[0..] == cs;
    AfterNothing(Pack(cs, [], 0, 0, sizes, maxBytes));
    for i := 0 to |cs|
      invariant pendingBytes >= 0 && index >= 0
      invariant pendingMemories == |AllMemories(pending)| && pendingEdges == |AllRelationships(pending)|
      invariant Pack(cs, [], 0, 0, sizes, maxBytes)
        == After(out, Pack(cs[i..], pending, pendingBytes, index, sizes, maxBytes))
    {
      hide Pack, AllMemories, AllRelationships;
      var c := cs[i];
      var bytes := ComponentBytes(c, index, sizes);
      assert cs[i..][0] == c && cs[i..][1..] == cs[i + 1..];
      PackUnfolds(cs[i..], pending, pendingBytes, index, sizes, maxBytes);
      AllOne(c);
      AllConcat(pending, [c]);
      var broken := Breaks(c, bytes, maxBytes);
      if broken.Some? {
        return Err(broken.value);
      }
      var overflows := pendingBytes + bytes > maxBytes
        || pendingMemories + |c.memories| > MAX_MEMORIES_PER_BATCH
        || pendingEdges + |c.relationships| > MAX_EDGES_PER_BATCH;
      if overflows && pending != [] {
        AfterMore(out, Flush(pending, index), Pack(cs[i + 1..], [c], bytes, index + 1, sizes, maxBytes));
        out := out + [Flush(pending, index)];
        index := index + 1;
        pendingBytes, pendingMemories, pendingEdges, pending := bytes, |c.memories|, |c.relationships|, [c];
      } else {
        pendingBytes, pendingMemories, pendingEdges := pendingBytes + bytes, pendingMemories + |c.memories|,
          pendingEdges + |c.relationships|;
        pending := pending + [c];
      }
    }
    assert cs[|cs|..] == [];
    PackEnds(pending, pendingBytes, index, sizes, maxBytes);
    assert out + [] == out;
    if pending != [] {
      out := out + [Flush(pending, index)];
    }
    r := Ok(out);
  }

  /** Splits one unit into batches. */
  method SplitUnit(unit: BatchUnit, sizes: Sizes, maxBytes: nat) returns (r: Result<seq<Batch>, SdkError>)
    ensures r == Split(unit, sizes, maxBytes)
  {
    hide ValidUnit, Components, Pack;
    var ok := ValidateUnit(unit);
    if !ok {
      return Err(InvalidUnit);
    }
    var cs := Gather(unit);
    r := PackComponents(cs, sizes, maxBytes);
    if r.Ok? {
      var batches := r.value;
      for i := 0 to |batches|
        invariant Oversized(batches, sizes, maxBytes) == Oversized(batches[i..], sizes, maxBytes)
      {
        assert batches[i..][1..] == batches[i + 1..];
        if sizes.batch(batches[i]) > maxBytes {
          return Err(Unsplittable(SortedKeys(batches[i].memories), MaxBytes));
        }
      }
    }
  }
}
