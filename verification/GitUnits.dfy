/** A slice group becomes a submission unit: one row per commit slice, one per path, one edge per
    (slice, path). */
module GitUnits {
  import opened Common
  import opened Sorting
  import opened Keys
  import opened Decimal
  import opened Grouping
  import opened Splitter
  import opened GitHistory

  function CommitKey(sha: string): string { "commit-" + sha }

  function FileKey(position: nat): string { "file-" + Digits(position) }

  function AllFiles(slices: seq<Slice>): seq<string> {
    if slices == [] then [] else AllFiles(slices[..|slices| - 1]) + slices[|slices| - 1].files
  }

  /** The group's paths in ascending order. */
  function PathOrder(slices: seq<Slice>): seq<string> {
    StableSort(FirstSeen(AllFiles(slices)), LexLe)
  }

  function IndexOf(order: seq<string>, path: string): (i: nat)
    requires path in order
    ensures i < |order| && order[i] == path
  {
    if order[0] == path then 0 else 1 + IndexOf(order[1..], path)
  }

  function CommitRows(commits: seq<Commit>, slices: seq<Slice>): (r: seq<MemoryDraft>)
    requires Known(commits, slices)
    ensures |r| == |slices|
    ensures forall i :: 0 <= i < |slices| ==>
      r[i].draftKey == CommitKey(commits[slices[i].commit].sha)
        && r[i].externalKey == Some(commits[slices[i].commit].sha)
  {
    seq(|slices|, i requires 0 <= i < |slices| =>
      MemoryDraft(CommitKey(commits[slices[i].commit].sha), commits[slices[i].commit].sha,
        Some(commits[slices[i].commit].sha)))
  }

  function FileRows(order: seq<string>): (r: seq<MemoryDraft>)
    ensures |r| == |order|
    ensures forall i :: 0 <= i < |order| ==> r[i].draftKey == FileKey(i) && r[i].externalKey == Some(order[i])
  {
    seq(|order|, i requires 0 <= i < |order| => MemoryDraft(FileKey(i), order[i], Some(order[i])))
  }

  function SliceEdges(sha: string, files: seq<string>, order: seq<string>): (r: seq<RelationshipDraft>)
    requires forall i :: 0 <= i < |files| ==> files[i] in order
    ensures |r| == |files|
    ensures forall i :: 0 <= i < |files| ==>
      r[i].from == CommitKey(sha) && r[i].to == FileKey(IndexOf(order, files[i]))
  {
    seq(|files|, i requires 0 <= i < |files| =>
      RelationshipDraft(CommitKey(sha), FileKey(IndexOf(order, files[i])), "Modifies", "changed in " + sha))
  }

  ghost predicate Known(commits: seq<Commit>, slices: seq<Slice>) {
    forall i :: 0 <= i < |slices| ==> slices[i].commit < |commits|
  }

  ghost predicate Ordered(slices: seq<Slice>, order: seq<string>) {
    forall i :: 0 <= i < |slices| ==> forall j :: 0 <= j < |slices[i].files| ==> slices[i].files[j] in order
  }

  function Edges(commits: seq<Commit>, slices: seq<Slice>, order: seq<string>): seq<RelationshipDraft>
    requires Known(commits, slices) && Ordered(slices, order)
  {
    if slices == [] then []
    else
      var n := |slices| - 1;
      Edges(commits, slices[..n], order) + SliceEdges(commits[slices[n].commit].sha, slices[n].files, order)
  }

  lemma {:induction false} AllFilesMembers(slices: seq<Slice>)
    ensures forall p :: p in AllFiles(slices) <==> p in PathsOf(slices)
    ensures Ordered(slices, AllFiles(slices))
  {
    if slices != [] {
      var n := |slices| - 1;
      AllFilesMembers(slices[..n]);
      forall i | 0 <= i < |slices|
        ensures forall j :: 0 <= j < |slices[i].files| ==> slices[i].files[j] in AllFiles(slices)
      {
        if i < n { assert slices[i] == slices[..n][i]; }
      }
    }
  }

  /** The path order lists every path of the group exactly once. */
  lemma {:induction false} PathOrderCovers(slices: seq<Slice>)
    ensures Distinct(PathOrder(slices)) && Ordered(slices, PathOrder(slices))
      && |PathOrder(slices)| == |PathsOf(slices)|
  {
    var (seen, order) := (FirstSeen(AllFiles(slices)), PathOrder(slices));
    AllFilesMembers(slices);
    RearrangedDistinct(seen, order);
    forall p ensures p in order <==> p in seen {
      assert p in order <==> p in multiset(order);
      assert p in seen <==> p in multiset(seen);
    }
    assert Elements(order) == PathsOf(slices);
    DistinctBySize(order);
  }

  function Unit(commits: seq<Commit>, g: SliceGroup): BatchUnit
    requires Known(commits, g.slices)
  {
    PathOrderCovers(g.slices);
    var order := PathOrder(g.slices);
    BatchUnit(
      CommitRows(commits, g.slices) + FileRows(order),
      Edges(commits, g.slices, order),
      Some(if g.slices == [] then "empty" else commits[g.slices[|g.slices| - 1].commit].sha))
  }

  lemma {:induction false} EdgesCount(commits: seq<Commit>, slices: seq<Slice>, order: seq<string>)
    requires Known(commits, slices) && Ordered(slices, order)
    ensures |Edges(commits, slices, order)| == EdgeCount(slices)
  {
    if slices != [] { EdgesCount(commits, slices[..|slices| - 1], order); }
  }

  /** The edge runs from the row of slice i to the row of path f. */
  ghost predicate Runs(commits: seq<Commit>, slices: seq<Slice>, r: RelationshipDraft, i: nat, f: nat)
    requires Known(commits, slices) && i < |slices|
  {
    r.from == CommitKey(commits[slices[i].commit].sha) && r.to == FileKey(f)
  }

  /** Every edge runs from the row of a slice of this group to the row of one of its paths. */
  lemma {:induction false} EdgeEnds(commits: seq<Commit>, slices: seq<Slice>, order: seq<string>, k: nat)
      returns (i: nat, f: nat)
    requires Known(commits, slices) && Ordered(slices, order) && k < |Edges(commits, slices, order)|
    ensures i < |slices| && f < |order| && Runs(commits, slices, Edges(commits, slices, order)[k], i, f)
  {
    var n := |slices| - 1;
    var before := Edges(commits, slices[..n], order);
    if k < |before| {
      i, f := EdgeEnds(commits, slices[..n], order, k);
    } else {
      i, f := n, IndexOf(order, slices[n].files[k - |before|]);
    }
  }

  lemma RowKeys(commits: seq<Commit>, g: SliceGroup, i: nat, f: nat)
    requires Known(commits, g.slices) && i < |g.slices| && f < |PathOrder(g.slices)|
    ensures CommitKey(commits[g.slices[i].commit].sha) in DraftKeys(Unit(commits, g).memories)
    ensures FileKey(f) in DraftKeys(Unit(commits, g).memories)
  {
    var keys := DraftKeys(Unit(commits, g).memories);
    assert keys[i] == CommitKey(commits[g.slices[i].commit].sha);
    assert keys[|g.slices| + f] == FileKey(f);
  }

  lemma KeysDistinct(commits: seq<Commit>, g: SliceGroup)
    requires Known(commits, g.slices)
    requires forall i, j :: 0 <= i < j < |commits| ==> commits[i].sha != commits[j].sha
    requires forall i, j :: 0 <= i < j < |g.slices| ==> g.slices[i].commit < g.slices[j].commit
    ensures Distinct(DraftKeys(Unit(commits, g).memories))
  {
    var (rows, files) := (CommitRows(commits, g.slices), FileRows(PathOrder(g.slices)));
    var keys := DraftKeys(rows + files);
    hide PathOrder, Digits, Unit;
    forall i, j | 0 <= i < j < |keys| ensures keys[i] != keys[j] {
      if j < |rows| {
        CommitKeysDiffer(commits[g.slices[i].commit].sha, commits[g.slices[j].commit].sha);
      } else if i < |rows| {
        KeysApart(commits[g.slices[i].commit].sha, j - |rows|);
      } else {
        FileKeysDiffer(i - |rows|, j - |rows|);
      }
    }
    UnitMemories(commits, g);
  }

  lemma UnitMemories(commits: seq<Commit>, g: SliceGroup)
    requires Known(commits, g.slices)
    ensures Unit(commits, g).memories == CommitRows(commits, g.slices) + FileRows(PathOrder(g.slices))
  {
  }

  lemma CommitKeysDiffer(a: string, b: string)
    requires a != b
    ensures CommitKey(a) != CommitKey(b)
  {
    assert CommitKey(a)[7..] == a && CommitKey(b)[7..] == b;
  }

  lemma FileKeysDiffer(a: nat, b: nat)
    requires a != b
    ensures FileKey(a) != FileKey(b)
  {
    assert FileKey(a)[5..] == Digits(a) && FileKey(b)[5..] == Digits(b);
    if Digits(a) == Digits(b) { DigitsInjective(a, b); }
  }

  lemma KeysApart(sha: string, n: nat)
    ensures CommitKey(sha) != FileKey(n)
  {
    assert CommitKey(sha)[0] == 'c' && FileKey(n)[0] == 'f';
  }

  // ----- what a unit says

  /** The row of draft key `key` stands for `pk`. */
  ghost predicate StandsFor(rows: seq<MemoryDraft>, key: string, pk: string) {
    exists k :: 0 <= k < |rows| && rows[k].draftKey == key && rows[k].externalKey == Some(pk)
  }

  /** A row for each slice, in order. */
  ghost predicate CommitsRecorded(commits: seq<Commit>, slices: seq<Slice>, rows: seq<MemoryDraft>)
    requires Known(commits, slices)
  {
    && |rows| == |slices|
    && forall i :: 0 <= i < |rows| ==>
         && rows[i].draftKey == "commit-" + commits[slices[i].commit].sha
         && rows[i].externalKey == Some(commits[slices[i].commit].sha)
  }

  /** A row for each path of the slices, once, in ascending order and keyed by its place there. */
  ghost predicate PathsRecorded(slices: seq<Slice>, rows: seq<MemoryDraft>) {
    && (forall k :: 0 <= k < |rows| ==> rows[k].draftKey == "file-" + Digits(k) && rows[k].externalKey.Some?)
    && (forall j, k :: 0 <= j < k < |rows| ==>
          && rows[j].externalKey != rows[k].externalKey
          && LexLe(rows[j].externalKey.value, rows[k].externalKey.value))
    && (forall p :: (exists k :: 0 <= k < |rows| && rows[k].externalKey == Some(p))
          <==> exists i :: 0 <= i < |slices| && p in slices[i].files)
  }

  /** Slice by slice and path by path, an edge from the commit's row to the path's. */
  ghost predicate EdgesRecord(commits: seq<Commit>, slices: seq<Slice>, unit: BatchUnit)
    requires Known(commits, slices)
  {
    && |unit.relationships| == EdgeCount(slices)
    && forall i, j :: 0 <= i < |slices| && 0 <= j < |slices[i].files| ==>
         EdgeRecords(commits[slices[i].commit].sha, slices[i].files[j], unit, EdgeCount(slices[..i]) + j)
  }

  ghost predicate EdgeRecords(sha: string, path: string, unit: BatchUnit, e: nat) {
    && e < |unit.relationships|
    && var r := unit.relationships[e];
    && StandsFor(unit.memories, r.from, sha) && r.from == "commit-" + sha
    && StandsFor(unit.memories, r.to, path) && "file-" <= r.to
    && r.kind == "Modifies" && r.body == "changed in " + sha
  }

  /** A unit has the rows and the edges its slices ask for, and the newest of its commits as its snapshot. */
  lemma UnitRecords(commits: seq<Commit>, g: SliceGroup)
    requires Known(commits, g.slices)
    ensures var (rows, n) := (Unit(commits, g).memories, |g.slices|);
      n <= |rows| && CommitsRecorded(commits, g.slices, rows[..n]) && PathsRecorded(g.slices, rows[n..])
    ensures EdgesRecord(commits, g.slices, Unit(commits, g))
    ensures Unit(commits, g).snapshot ==
      Some(if g.slices == [] then "empty" else commits[g.slices[|g.slices| - 1].commit].sha)
  {
    RowsAreRecorded(commits, g);
    EdgesAreRecorded(commits, g);
  }

  lemma RowsAreRecorded(commits: seq<Commit>, g: SliceGroup)
    requires Known(commits, g.slices)
    ensures var (rows, n) := (Unit(commits, g).memories, |g.slices|);
      n <= |rows| && CommitsRecorded(commits, g.slices, rows[..n]) && PathsRecorded(g.slices, rows[n..])
  {
    hide PathsRecorded, Unit, PathOrder;
    UnitMemories(commits, g);
    PathsAreRecorded(g.slices);
    var (first, rest) := (CommitRows(commits, g.slices), FileRows(PathOrder(g.slices)));
    assert (first + rest)[..|first|] == first && (first + rest)[|first|..] == rest;
  }

  lemma EdgesAreRecorded(commits: seq<Commit>, g: SliceGroup)
    requires Known(commits, g.slices)
    ensures EdgesRecord(commits, g.slices, Unit(commits, g))
  {
    hide Unit, EdgeRecords;
    UnitShape(commits, g);
    forall i, j | 0 <= i < |g.slices| && 0 <= j < |g.slices[i].files|
      ensures EdgeRecords(commits[g.slices[i].commit].sha, g.slices[i].files[j], Unit(commits, g),
        EdgeCount(g.slices[..i]) + j)
    {
      EdgeIsRecorded(commits, g, i, j);
    }
  }

  lemma PathsAreRecorded(slices: seq<Slice>)
    ensures PathsRecorded(slices, FileRows(PathOrder(slices)))
  {
    var (order, rows) := (PathOrder(slices), FileRows(PathOrder(slices)));
    PathOrderCovers(slices);
    PathOrderAscends(slices);
    hide PathOrder, FileRows, Digits, LexLe, PathsOf, Ordered;
    forall p ensures (exists k :: 0 <= k < |rows| && rows[k].externalKey == Some(p))
      <==> exists i :: 0 <= i < |slices| && p in slices[i].files
    {
      PathIsOrdered(slices, p);
      if p in order {
        var k :| 0 <= k < |order| && order[k] == p;
        assert rows[k].externalKey == Some(p);
      }
    }
  }

  lemma PathOrderAscends(slices: seq<Slice>)
    ensures forall j, k :: 0 <= j < k < |PathOrder(slices)| ==> LexLe(PathOrder(slices)[j], PathOrder(slices)[k])
  {
    LexIsOrder();
    StableSortSorts(FirstSeen(AllFiles(slices)), LexLe);
  }

  lemma PathIsOrdered(slices: seq<Slice>, p: string)
    ensures p in PathOrder(slices) <==> exists i :: 0 <= i < |slices| && p in slices[i].files
  {
    var (seen, order) := (FirstSeen(AllFiles(slices)), PathOrder(slices));
    assert p in order <==> p in multiset(order);
    assert p in seen <==> p in multiset(seen);
    FileFrom(slices, p);
  }

  lemma {:induction false} FileFrom(slices: seq<Slice>, p: string)
    ensures p in AllFiles(slices) <==> exists i :: 0 <= i < |slices| && p in slices[i].files
  {
    if slices != [] {
      var n := |slices| - 1;
      FileFrom(slices[..n], p);
      assert slices == slices[..n] + [slices[n]];
    }
  }

  lemma CommitStands(commits: seq<Commit>, g: SliceGroup, i: nat)
    requires Known(commits, g.slices) && i < |g.slices|
    ensures var sha := commits[g.slices[i].commit].sha; StandsFor(Unit(commits, g).memories, CommitKey(sha), sha)
  {
    UnitMemories(commits, g);
    hide PathOrder, Unit, FileRows;
    var sha := commits[g.slices[i].commit].sha;
    assert Unit(commits, g).memories[i].draftKey == CommitKey(sha);
  }

  lemma {:induction false} PathStands(commits: seq<Commit>, g: SliceGroup, path: string)
    requires Known(commits, g.slices) && path in PathOrder(g.slices)
    ensures StandsFor(Unit(commits, g).memories, FileKey(IndexOf(PathOrder(g.slices), path)), path)
  {
    hide PathOrder, Unit, FileKey, IndexOf;
    UnitMemories(commits, g);
    RowStands(CommitRows(commits, g.slices), PathOrder(g.slices), IndexOf(PathOrder(g.slices), path));
  }

  lemma RowStands(first: seq<MemoryDraft>, order: seq<string>, f: nat)
    requires f < |order|
    ensures StandsFor(first + FileRows(order), FileKey(f), order[f])
  {
    hide FileKey;
    assert (first + FileRows(order))[|first| + f] == FileRows(order)[f];
  }

  lemma EdgeIsRecorded(commits: seq<Commit>, g: SliceGroup, i: nat, j: nat)
    requires Known(commits, g.slices) && i < |g.slices| && j < |g.slices[i].files|
    ensures EdgeRecords(commits[g.slices[i].commit].sha, g.slices[i].files[j], Unit(commits, g),
      EdgeCount(g.slices[..i]) + j)
  {
    var order := PathOrder(g.slices);
    PathOrderCovers(g.slices);
    assert Unit(commits, g).relationships == Edges(commits, g.slices, order);
    hide PathOrder, Edges, Digits, Unit, StandsFor, EdgeCount;
    EdgeAt(commits, g.slices, order, i, j);
    CommitStands(commits, g, i);
    PathStands(commits, g, g.slices[i].files[j]);
  }

  lemma {:induction false} EdgeAt(commits: seq<Commit>, slices: seq<Slice>, order: seq<string>, i: nat, j: nat)
    requires Known(commits, slices) && Ordered(slices, order) && i < |slices| && j < |slices[i].files|
    ensures var (e, sha) := (EdgeCount(slices[..i]) + j, commits[slices[i].commit].sha);
      e < |Edges(commits, slices, order)| && Edges(commits, slices, order)[e] ==
        RelationshipDraft(CommitKey(sha), FileKey(IndexOf(order, slices[i].files[j])), "Modifies", "changed in " + sha)
  {
    var n := |slices| - 1;
    EdgesCount(commits, slices[..n], order);
    if i < n {
      assert slices[..n][..i] == slices[..i];
      hide Ordered, SliceEdges;
      EdgeAt(commits, slices[..n], order, i, j);
    }
  }

  /** With distinct shas, a closed group's unit has the rows and edges it counted and passes validation. */
  lemma UnitIsValid(commits: seq<Commit>, g: SliceGroup, maxRows: nat, maxEdges: nat)
    requires Known(commits, g.slices) && Bounded(g, maxRows, maxEdges)
    requires forall i, j :: 0 <= i < j < |commits| ==> commits[i].sha != commits[j].sha
    ensures ValidUnit(Unit(commits, g))
    ensures |Unit(commits, g).memories| == g.Rows() && |Unit(commits, g).relationships| == g.edges
  {
    KeysDistinct(commits, g);
    EdgesKnown(commits, g);
    UnitShape(commits, g);
    hide Unit;
  }

  lemma EdgesKnown(commits: seq<Commit>, g: SliceGroup)
    requires Known(commits, g.slices)
    ensures var unit := Unit(commits, g);
      forall k :: 0 <= k < |unit.relationships| ==>
        unit.relationships[k].from in DraftKeys(unit.memories) && unit.relationships[k].to in DraftKeys(unit.memories)
  {
    var unit := Unit(commits, g);
    PathOrderCovers(g.slices);
    assert unit.relationships == Edges(commits, g.slices, PathOrder(g.slices));
    hide Unit, PathOrder, Edges, Digits;
    forall k | 0 <= k < |unit.relationships|
      ensures unit.relationships[k].from in DraftKeys(unit.memories)
        && unit.relationships[k].to in DraftKeys(unit.memories)
    {
      var i, f := EdgeEnds(commits, g.slices, PathOrder(g.slices), k);
      RowKeys(commits, g, i, f);
    }
  }

  lemma UnitShape(commits: seq<Commit>, g: SliceGroup)
    requires Known(commits, g.slices)
    ensures var unit := Unit(commits, g);
      && |unit.memories| == |g.slices| + |PathsOf(g.slices)| && |unit.relationships| == EdgeCount(g.slices)
      && forall i :: 0 <= i < |unit.memories| ==> unit.memories[i].externalKey.Some?
  {
    PathOrderCovers(g.slices);
    EdgesCount(commits, g.slices, PathOrder(g.slices));
    hide PathOrder, Edges;
  }

  /** What slicing by the batch edge ceiling is for: the splitter never refuses one of these units for a
      count, so no row is left behind a cursor that moved on. */
  lemma UnitsSplitByCount(commits: seq<Commit>, groups: seq<SliceGroup>, frontiers: seq<Option<nat>>, maxRows: nat,
      i: nat, sizes: Sizes, maxBytes: nat)
    requires Closed(commits, groups, frontiers, maxRows, MAX_EDGES_PER_BATCH) && i < |groups|
    requires forall i, j :: 0 <= i < j < |commits| ==> commits[i].sha != commits[j].sha
    ensures Known(commits, groups[i].slices)
    ensures var r := Split(Unit(commits, groups[i]), sizes, maxBytes);
      r.Err? ==> r.error.Unsplittable? && r.error.bound == MaxBytes
  {
    UnitIsValid(commits, groups[i], maxRows, MAX_EDGES_PER_BATCH);
    var unit := Unit(commits, groups[i]);
    hide Closed, Unit, ValidUnit, Components;
    forall k | 0 <= k < |Components(unit)| ensures |Components(unit)[k].relationships| <= MAX_EDGES_PER_BATCH {
      ComponentFits(unit, k);
    }
    SmallUnitRefusedForBytesOnly(unit, sizes, maxBytes);
  }
}
