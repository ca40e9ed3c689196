/** Which ceiling a refused split names. The memory ceiling is checked before the edge ceiling, so a component
    over both is reported for its memories. */
module Ceilings {
  import opened Common
  import opened Sorting
  import opened Decimal
  import opened Grouping
  import opened Splitter
  import UnionFind

  // ----- the first component that breaks decides

  /** The ceiling a component breaks by its counts alone, memories first. */
  predicate OverMemories(c: Component) { |c.memories| > MAX_MEMORIES_PER_BATCH }

  predicate OverEdges(c: Component) {
    |c.memories| <= MAX_MEMORIES_PER_BATCH && |c.relationships| > MAX_EDGES_PER_BATCH
  }

  /** Everything before component `k` packs, and `k` is the one that breaks. */
  ghost predicate FirstBreak(cs: seq<Component>, k: nat, sizes: Sizes, maxBytes: nat) {
    k < |cs| && Pack(cs[..k], [], 0, 0, sizes, maxBytes).Ok? && Pack(cs[..k + 1], [], 0, 0, sizes, maxBytes).Err?
  }

  /** The packing loop's state: what is pending, its bytes, and the next index. */
  datatype Packing = Packing(pending: seq<Component>, bytes: nat, index: nat)

  function PackFrom(cs: seq<Component>, p: Packing, sizes: Sizes, maxBytes: nat): Result<seq<Batch>, SdkError> {
    Pack(cs, p.pending, p.bytes, p.index, sizes, maxBytes)
  }

  /** The state behind a component that breaks nothing. */
  function Passed(c: Component, p: Packing, sizes: Sizes, maxBytes: nat): Packing {
    var bytes := ComponentBytes(c, p.index, sizes);
    if Overflows(p.pending, p.bytes, c, bytes, maxBytes) && p.pending != [] then Packing([c], bytes, p.index + 1)
    else Packing(p.pending + [c], p.bytes + bytes, p.index)
  }

  function BreaksHere(c: Component, p: Packing, sizes: Sizes, maxBytes: nat): Option<SdkError> {
    Breaks(c, ComponentBytes(c, p.index, sizes), maxBytes)
  }

  /** Two packings succeed together, and fail with the same error. */
  ghost predicate SameVerdict(a: Result<seq<Batch>, SdkError>, b: Result<seq<Batch>, SdkError>) {
    (a.Ok? <==> b.Ok?) && (a.Err? ==> a == b)
  }

  /** A component that breaks nothing is passed: packing goes on behind it from the state it leaves. */
  lemma PackPasses(c: Component, rest: seq<Component>, p: Packing, sizes: Sizes, maxBytes: nat)
    ensures var broken := BreaksHere(c, p, sizes, maxBytes);
      if broken.Some? then PackFrom([c] + rest, p, sizes, maxBytes) == Err(broken.value)
      else SameVerdict(PackFrom([c] + rest, p, sizes, maxBytes),
        PackFrom(rest, Passed(c, p, sizes, maxBytes), sizes, maxBytes))
  {
    hide Pack, ComponentBytes, Flush, StableSort, Breaks, Overflows;
    var cs := [c] + rest;
    assert cs != [] && cs[0] == c && cs[1..] == rest;
    PackUnfolds(cs, p.pending, p.bytes, p.index, sizes, maxBytes);
  }

  lemma BreaksBlames(c: Component, bytes: nat, maxBytes: nat)
    ensures Breaks(c, bytes, maxBytes).Some? ==> Blames(Breaks(c, bytes, maxBytes).value, c)
    ensures OverMemories(c) || OverEdges(c) ==> Breaks(c, bytes, maxBytes).Some?
  {
    hide StableSort;
  }

  /** Behind what packs, packing stops at `c` if it breaks, whatever follows; and it breaks if a count does. */
  lemma {:induction false} PackStopsAt(before: seq<Component>, c: Component, rest: seq<Component>, p: Packing,
      sizes: Sizes, maxBytes: nat)
    requires PackFrom(before, p, sizes, maxBytes).Ok?
    ensures var upTo := PackFrom(before + [c], p, sizes, maxBytes);
      && (upTo.Err? ==> PackFrom(before + [c] + rest, p, sizes, maxBytes) == upTo && Blames(upTo.error, c))
      && (OverMemories(c) || OverEdges(c) ==> upTo.Err?)
    decreases |before|
  {
    hide PackFrom, BreaksHere, Passed, OverMemories, OverEdges, Blames;
    if before == [] {
      assert before + [c] == [c] + [] && before + [c] + rest == [c] + rest;
      PackPasses(c, [], p, sizes, maxBytes);
      PackPasses(c, rest, p, sizes, maxBytes);
      BreaksHereBlames(c, p, sizes, maxBytes);
      PackNothing(Passed(c, p, sizes, maxBytes), sizes, maxBytes);
    } else {
      var (first, more) := (before[0], before[1..]);
      assert before == [first] + more;
      assert before + [c] == [first] + (more + [c]) && before + [c] + rest == [first] + (more + [c] + rest);
      PackPasses(first, more, p, sizes, maxBytes);
      PackPasses(first, more + [c], p, sizes, maxBytes);
      PackPasses(first, more + [c] + rest, p, sizes, maxBytes);
      PackStopsAt(more, c, rest, Passed(first, p, sizes, maxBytes), sizes, maxBytes);
    }
  }

  lemma BreaksHereBlames(c: Component, p: Packing, sizes: Sizes, maxBytes: nat)
    ensures BreaksHere(c, p, sizes, maxBytes).Some? ==> Blames(BreaksHere(c, p, sizes, maxBytes).value, c)
    ensures OverMemories(c) || OverEdges(c) ==> BreaksHere(c, p, sizes, maxBytes).Some?
  {
    BreaksBlames(c, ComponentBytes(c, p.index, sizes), maxBytes);
  }

  lemma {:induction false} StopsAt(cs: seq<Component>, k: nat, sizes: Sizes, maxBytes: nat)
    requires k < |cs| && Pack(cs[..k], [], 0, 0, sizes, maxBytes).Ok?
    ensures var upTo := Pack(cs[..k + 1], [], 0, 0, sizes, maxBytes);
      && (upTo.Err? ==> Pack(cs, [], 0, 0, sizes, maxBytes) == upTo && Blames(upTo.error, cs[k]))
      && (OverMemories(cs[k]) || OverEdges(cs[k]) ==> upTo.Err?)
  {
    assert cs[..k + 1] == cs[..k] + [cs[k]] && cs == cs[..k] + [cs[k]] + cs[k + 1..];
    hide Pack, Blames, OverMemories, OverEdges;
    PackStopsAt(cs[..k], cs[k], cs[k + 1..], Packing([], 0, 0), sizes, maxBytes);
  }

  lemma PackNothing(p: Packing, sizes: Sizes, maxBytes: nat)
    ensures PackFrom([], p, sizes, maxBytes).Ok?
  {
  }

  /** The error names the component's keys and the first ceiling it breaks. */
  ghost predicate Blames(e: SdkError, c: Component) {
    && e.Unsplittable? && e.draftKeys == SortedKeys(c.memories)
    && (e.bound == MaxMemories <==> OverMemories(c))
    && (e.bound == MaxEdges <==> OverEdges(c))
  }

  /** A refused packing has a first component that breaks. */
  lemma {:induction false} FirstBreakOf(cs: seq<Component>, sizes: Sizes, maxBytes: nat, n: nat) returns (k: nat)
    requires n <= |cs| && Pack(cs[..n], [], 0, 0, sizes, maxBytes).Err?
    ensures FirstBreak(cs, k, sizes, maxBytes)
  {
    assert cs[..0] == [];
    PackNothing(Packing([], 0, 0), sizes, maxBytes);
    hide Pack;
    k := n - 1;
    if Pack(cs[..k], [], 0, 0, sizes, maxBytes).Err? { k := FirstBreakOf(cs, sizes, maxBytes, k); }
  }

  ghost predicate Refuses(unit: BatchUnit, sizes: Sizes, maxBytes: nat, bound: Bound) {
    var r := Split(unit, sizes, maxBytes);
    r.Err? && r.error.Unsplittable? && r.error.bound == bound
  }

  /** Which count a refusal names: that of the first component that breaks anything, its memories before its
      edges. */
  lemma RefusalNamesFirstBreak(unit: BatchUnit, sizes: Sizes, maxBytes: nat)
    requires ValidUnit(unit)
    ensures Refuses(unit, sizes, maxBytes, MaxMemories) <==>
      exists k: nat :: FirstBreak(Components(unit), k, sizes, maxBytes) && OverMemories(Components(unit)[k])
    ensures Refuses(unit, sizes, maxBytes, MaxEdges) <==>
      exists k: nat :: FirstBreak(Components(unit), k, sizes, maxBytes) && OverEdges(Components(unit)[k])
  {
    var cs := Components(unit);
    var packed := Pack(cs, [], 0, 0, sizes, maxBytes);
    assert cs[..|cs|] == cs;
    SplitFollowsPack(unit, sizes, maxBytes);
    hide ValidUnit, Components, OverMemories, OverEdges, Pack, Blames, Split, FirstBreak, Refuses;
    forall k: nat | FirstBreak(cs, k, sizes, maxBytes)
      ensures k < |cs| && packed.Err? && Blames(packed.error, cs[k])
    {
      BreakIsBlamed(cs, k, sizes, maxBytes);
    }
    if packed.Err? {
      var k := FirstBreakOf(cs, sizes, maxBytes, |cs|);
      BlameIs(packed.error, cs[k]);
      OneBreak(cs, packed, sizes, maxBytes);
    }
  }

  /** A refusal for a count is the packing's own. */
  lemma {:induction false} SplitFollowsPack(unit: BatchUnit, sizes: Sizes, maxBytes: nat)
    requires ValidUnit(unit)
    ensures var packed := Pack(Components(unit), [], 0, 0, sizes, maxBytes);
      forall bound :: bound != MaxBytes ==>
        (Refuses(unit, sizes, maxBytes, bound) <==>
          packed.Err? && packed.error.Unsplittable? && packed.error.bound == bound)
  {
    hide ValidUnit, Components, Pack;
    var packed := Pack(Components(unit), [], 0, 0, sizes, maxBytes);
    if packed.Ok? { OversizedIsBytes(packed.value, sizes, maxBytes); }
    hide Oversized;
  }

  lemma {:induction false} BreakIsBlamed(cs: seq<Component>, k: nat, sizes: Sizes, maxBytes: nat)
    requires FirstBreak(cs, k, sizes, maxBytes)
    ensures Pack(cs, [], 0, 0, sizes, maxBytes).Err? && Blames(Pack(cs, [], 0, 0, sizes, maxBytes).error, cs[k])
  {
    StopsAt(cs, k, sizes, maxBytes);
    hide Pack, Blames;
  }

  lemma BlameIs(e: SdkError, c: Component)
    requires Blames(e, c)
    ensures e.Unsplittable? && (e.bound == MaxMemories <==> OverMemories(c)) && (e.bound == MaxEdges <==> OverEdges(c))
  {
  }

  lemma OneBreak(cs: seq<Component>, packed: Result<seq<Batch>, SdkError>, sizes: Sizes, maxBytes: nat)
    requires packed.Err? && forall k: nat :: FirstBreak(cs, k, sizes, maxBytes) ==> Blames(packed.error, cs[k])
    ensures forall k: nat :: FirstBreak(cs, k, sizes, maxBytes) ==>
      && packed.error.Unsplittable?
      && (packed.error.bound == MaxMemories <==> OverMemories(cs[k]))
        && (packed.error.bound == MaxEdges <==> OverEdges(cs[k]))
  {
    forall k: nat | FirstBreak(cs, k, sizes, maxBytes)
      ensures packed.error.Unsplittable? && (packed.error.bound == MaxMemories <==> OverMemories(cs[k]))
        && (packed.error.bound == MaxEdges <==> OverEdges(cs[k]))
    {
      BlameIs(packed.error, cs[k]);
    }
  }

  // ----- which count a unit can be refused for, whatever rows weigh

  /** The first component with more relationships than a batch may carry. */
  ghost predicate FirstOver(cs: seq<Component>, k: nat) {
    && k < |cs| && |cs[k].relationships| > MAX_EDGES_PER_BATCH
    && forall i :: 0 <= i < k ==> |cs[i].relationships| <= MAX_EDGES_PER_BATCH
  }

  lemma {:induction false} PackPrefix(cs: seq<Component>, n: nat, sizes: Sizes, maxBytes: nat)
    requires n <= |cs| && Pack(cs, [], 0, 0, sizes, maxBytes).Ok?
    ensures Pack(cs[..n], [], 0, 0, sizes, maxBytes).Ok?
  {
    hide Pack, Blames, FirstBreak;
    if Pack(cs[..n], [], 0, 0, sizes, maxBytes).Err? {
      var k := FirstBreakOf(cs, sizes, maxBytes, n);
      BreakIsBlamed(cs, k, sizes, maxBytes);
    }
  }

  /** What packs has no component over a count. */
  lemma {:induction false} PackedIsUnder(cs: seq<Component>, i: nat, sizes: Sizes, maxBytes: nat)
    requires i < |cs| && Pack(cs, [], 0, 0, sizes, maxBytes).Ok?
    ensures !OverMemories(cs[i]) && !OverEdges(cs[i])
  {
    PackPrefix(cs, i, sizes, maxBytes);
    StopsAt(cs, i, sizes, maxBytes);
    hide Pack, Blames, OverMemories, OverEdges;
  }

  lemma BreakIsFirstOver(unit: BatchUnit, k: nat, sizes: Sizes, maxBytes: nat)
    requires ValidUnit(unit) && FirstBreak(Components(unit), k, sizes, maxBytes)
    requires OverMemories(Components(unit)[k]) || OverEdges(Components(unit)[k])
    ensures FirstOver(Components(unit), k)
  {
    var cs := Components(unit);
    ComponentSize(unit, k);
    hide ValidUnit, Components, Pack;
    forall i | 0 <= i < k ensures |cs[i].relationships| <= MAX_EDGES_PER_BATCH {
      PackedIsUnder(cs[..k], i, sizes, maxBytes);
    }
  }

  function Weightless(): Sizes { Sizes((_, _, _) => 0, _ => 0) }

  lemma {:induction false} WeightlessPacks(cs: seq<Component>, pending: seq<Component>, index: nat)
    requires forall i :: 0 <= i < |cs| ==> !OverMemories(cs[i]) && !OverEdges(cs[i])
    ensures Pack(cs, pending, 0, index, Weightless(), 0).Ok?
    decreases |cs|
  {
    if cs != [] {
      PackUnfolds(cs, pending, 0, index, Weightless(), 0);
      WeightlessPacks(cs[1..], [cs[0]], index + 1);
      WeightlessPacks(cs[1..], pending + [cs[0]], index);
      hide Pack, Flush, Overflows, StableSort;
    }
  }

  lemma FirstOverBreaks(unit: BatchUnit, k: nat)
    requires ValidUnit(unit) && FirstOver(Components(unit), k)
    ensures FirstBreak(Components(unit), k, Weightless(), 0)
  {
    var cs := Components(unit);
    forall i | 0 <= i < k ensures !OverMemories(cs[i]) && !OverEdges(cs[i]) { ComponentSize(unit, i); }
    hide ValidUnit, Components, Pack, Blames;
    WeightlessPacks(cs[..k], [], 0);
    StopsAt(cs, k, Weightless(), 0);
  }

  /** A unit can be refused for a count if and only if some component has more relationships than a batch may
      carry; the count is then settled by the first such component: its memories if there are too many of
      those as well. */
  lemma CountRefusalIff(unit: BatchUnit)
    requires ValidUnit(unit)
    ensures (exists sizes, maxBytes: nat :: Refuses(unit, sizes, maxBytes, MaxMemories)) <==>
      exists k: nat :: FirstOver(Components(unit), k) && OverMemories(Components(unit)[k])
    ensures (exists sizes, maxBytes: nat :: Refuses(unit, sizes, maxBytes, MaxEdges)) <==>
      exists k: nat :: FirstOver(Components(unit), k) && !OverMemories(Components(unit)[k])
  {
    var cs := Components(unit);
    forall sizes, maxBytes: nat, bound | bound != MaxBytes && Refuses(unit, sizes, maxBytes, bound)
      ensures exists k: nat :: FirstOver(cs, k) && (OverMemories(cs[k]) <==> bound == MaxMemories)
    {
      RefusalFindsOver(unit, sizes, maxBytes, bound);
    }
    forall k: nat | FirstOver(cs, k)
      ensures Refuses(unit, Weightless(), 0, if OverMemories(cs[k]) then MaxMemories else MaxEdges)
    {
      OverIsRefused(unit, k);
    }
    hide ValidUnit, Components, OverMemories, Refuses, FirstOver;
  }

  lemma RefusalFindsOver(unit: BatchUnit, sizes: Sizes, maxBytes: nat, bound: Bound)
    requires ValidUnit(unit) && bound != MaxBytes && Refuses(unit, sizes, maxBytes, bound)
    ensures exists k: nat ::
      FirstOver(Components(unit), k) && (OverMemories(Components(unit)[k]) <==> bound == MaxMemories)
  {
    var cs := Components(unit);
    RefusalNamesFirstBreak(unit, sizes, maxBytes);
    hide ValidUnit, Components, Refuses, FirstBreak;
    var k: nat :| FirstBreak(cs, k, sizes, maxBytes)
      && if bound == MaxMemories then OverMemories(cs[k]) else OverEdges(cs[k]);
    BreakIsFirstOver(unit, k, sizes, maxBytes);
    assert FirstOver(cs, k);
  }

  lemma OverIsRefused(unit: BatchUnit, k: nat)
    requires ValidUnit(unit) && FirstOver(Components(unit), k)
    ensures Refuses(unit, Weightless(), 0, if OverMemories(Components(unit)[k]) then MaxMemories else MaxEdges)
  {
    RefusalNamesFirstBreak(unit, Weightless(), 0);
    FirstOverBreaks(unit, k);
    hide ValidUnit, Components, Refuses, FirstBreak, Weightless;
  }

  // ----- the memory ceiling is reached

  /** All drafts are in one component. */
  ghost predicate Welded(unit: BatchUnit)
    requires ValidUnit(unit)
  {
    forall i, j :: 0 <= i < |unit.memories| && 0 <= j < |unit.memories| ==>
      RootOf(unit, i) == RootOf(unit, j)
  }

  ghost function RootOf(unit: BatchUnit, i: nat): string
    requires ValidUnit(unit) && i < |unit.memories|
  {
    assert DraftKeys(unit.memories)[i] in KeySet(unit);
    RootsOf(unit)[unit.memories[i].draftKey]
  }

  lemma {:induction false} PickAll(items: seq<(string, MemoryDraft)>, tag: string)
    requires forall i :: 0 <= i < |items| ==> items[i].0 == tag
    ensures Pick(items, tag) == Untagged(items)
  {
    if items != [] { PickAll(items[..|items| - 1], tag); }
  }

  lemma WeldedComponent(unit: BatchUnit)
    requires ValidUnit(unit) && Welded(unit) && unit.memories != []
    ensures |Components(unit)| >= 1 && Components(unit)[0].memories == unit.memories
  {
    var (tm, root) := (TaggedMemories(unit), RootOf(unit, 0));
    assert Untagged(tm) == unit.memories;
    forall i | 0 <= i < |tm| ensures tm[i].0 == root { assert RootOf(unit, i) == root && tm[i].1 == unit.memories[i]; }
    RootOrderCovers(tm);
    hide ValidUnit, RootOrder, RootsOf, TaggedMemories;
    assert Tags(tm)[0] == root;
    assert RootOrder(tm) != [] && RootOrder(tm)[0] in Tags(tm);
    PickAll(tm, root);
  }

  /** A welded unit of too many drafts is refused for its memories, whatever the sizes. */
  lemma WeldedRefusedForMemories(unit: BatchUnit, sizes: Sizes, maxBytes: nat)
    requires ValidUnit(unit) && Welded(unit) && |unit.memories| > MAX_MEMORIES_PER_BATCH
    ensures Refuses(unit, sizes, maxBytes, MaxMemories)
  {
    var cs := Components(unit);
    assert cs[..0] == [];
    hide ValidUnit, Components, Pack, Refuses, Welded, Blames;
    WeldedComponent(unit);
    RefusalNamesFirstBreak(unit, sizes, maxBytes);
    PackNothing(Packing([], 0, 0), sizes, maxBytes);
    StopsAt(cs, 0, sizes, maxBytes);
    assert FirstBreak(cs, 0, sizes, maxBytes) && OverMemories(cs[0]);
  }

  function StarKey(i: nat): string { "m" + Digits(i) }

  /** `n` drafts, the first related to each of the others. */
  function Star(n: nat): (unit: BatchUnit)
    requires n > 0
    ensures |unit.memories| == n && |unit.relationships| == n - 1 && unit.snapshot == None
    ensures forall i :: 0 <= i < n ==> unit.memories[i].draftKey == StarKey(i)
    ensures forall i :: 0 <= i < n - 1 ==>
      unit.relationships[i].from == StarKey(0) && unit.relationships[i].to == StarKey(i + 1)
  {
    BatchUnit(
      seq(n, i requires 0 <= i < n => MemoryDraft(StarKey(i), "", None)),
      seq(n - 1, i requires 0 <= i < n - 1 => RelationshipDraft(StarKey(0), StarKey(i + 1), "RelatedTo", "")),
      None)
  }

  lemma StarKeysDiffer(i: nat, j: nat)
    requires StarKey(i) == StarKey(j)
    ensures i == j
  {
    assert StarKey(i)[1..] == Digits(i) && StarKey(j)[1..] == Digits(j);
    DigitsInjective(i, j);
  }

  lemma StarIsValid(n: nat)
    requires n > 0
    ensures ValidUnit(Star(n))
  {
    var unit := Star(n);
    var keys := DraftKeys(unit.memories);
    hide Star, StarKey;
    forall i, j | 0 <= i < j < |keys| ensures keys[i] != keys[j] {
      if keys[i] == keys[j] { StarKeysDiffer(i, j); }
    }
    forall i | 0 <= i < |unit.relationships|
      ensures unit.relationships[i].from in keys && unit.relationships[i].to in keys
    {
      assert keys[0] == unit.relationships[i].from && keys[i + 1] == unit.relationships[i].to;
    }
  }

  lemma StarIsWelded(n: nat)
    requires n > 0
    ensures ValidUnit(Star(n)) && Welded(Star(n))
  {
    StarIsValid(n);
    var unit := Star(n);
    EndpointsIn(unit);
    UnionFind.EdgesShareRoots(KeySet(unit), EdgesOf(unit.relationships));
    hide Star, StarKey, ValidUnit, UnionFind.Roots;
    forall i | 0 <= i < n ensures RootOf(unit, i) == RootOf(unit, 0) {
      if i > 0 { assert EdgesOf(unit.relationships)[i - 1] == UnionFind.Edge(StarKey(0), StarKey(i)); }
    }
  }

  lemma EndpointsIn(unit: BatchUnit)
    requires ValidUnit(unit)
    ensures UnionFind.Endpoints(KeySet(unit), EdgesOf(unit.relationships))
  {
  }

  /** So the arm that is said to be unreachable is reached: a star of more than 256 drafts is over both count
      ceilings, and is refused for its memories. */
  lemma StarRefusedForMemories(n: nat, sizes: Sizes, maxBytes: nat)
    requires n > MAX_MEMORIES_PER_BATCH
    ensures |Star(n).relationships| > MAX_EDGES_PER_BATCH && Refuses(Star(n), sizes, maxBytes, MaxMemories)
  {
    StarIsWelded(n);
    WeldedRefusedForMemories(Star(n), sizes, maxBytes);
  }
}
