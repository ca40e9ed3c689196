/** Packing commits into units bounded by rows and by edges, slicing commits that touch too many paths,
    and reporting after each unit the newest commit that has landed completely. */
module GitHistory {
  import opened Common

  datatype Commit = Commit(sha: string, files: seq<string>)

  /** Some of one commit's paths. */
  datatype Slice = Slice(commit: nat, files: seq<string>)

  datatype SliceGroup = SliceGroup(slices: seq<Slice>, paths: set<string>, edges: nat)
  {
    function Rows(): nat { |slices| + |paths| }
  }

  const EMPTY_GROUP := SliceGroup([], {}, 0)

  // ----- what a trail of slices holds

  /** The paths a trail holds for one commit, in trail order. */
  function FilesOf(trail: seq<Slice>, c: nat): seq<string> {
    if trail == [] then []
    else
      var n := |trail| - 1;
      FilesOf(trail[..n], c) + (if trail[n].commit == c then trail[n].files else [])
  }

  ghost predicate Present(trail: seq<Slice>, c: nat) {
    exists i :: 0 <= i < |trail| && trail[i].commit == c
  }

  /** Commit c has its row and all its edges in the trail. */
  ghost predicate Complete(commits: seq<Commit>, trail: seq<Slice>, c: nat)
    requires c < |commits|
  {
    Present(trail, c) && FilesOf(trail, c) == commits[c].files
  }

  function Trail(groups: seq<SliceGroup>): seq<Slice> {
    if groups == [] then []
    else Trail(groups[..|groups| - 1]) + groups[|groups| - 1].slices
  }

  function FileSet(files: seq<string>): set<string> { set p | p in files }

  function PathsOf(slices: seq<Slice>): set<string> {
    if slices == [] then {}
    else PathsOf(slices[..|slices| - 1]) + FileSet(slices[|slices| - 1].files)
  }

  function EdgeCount(slices: seq<Slice>): nat {
    if slices == [] then 0 else EdgeCount(slices[..|slices| - 1]) + |slices[|slices| - 1].files|
  }

  /** Rows of commits that touch nothing. */
  function Bare(slices: seq<Slice>): nat {
    if slices == [] then 0
    else Bare(slices[..|slices| - 1]) + (if slices[|slices| - 1].files == [] then 1 else 0)
  }

  lemma {:induction false} SliceAppend(slices: seq<Slice>, s: Slice)
    ensures PathsOf(slices + [s]) == PathsOf(slices) + FileSet(s.files)
    ensures EdgeCount(slices + [s]) == EdgeCount(slices) + |s.files|
    ensures Bare(slices + [s]) == Bare(slices) + (if s.files == [] then 1 else 0)
    ensures forall c :: FilesOf(slices + [s], c) == if s.commit == c then FilesOf(slices, c) + s.files
      else FilesOf(slices, c)
  {
    assert (slices + [s])[..|slices|] == slices;
  }

  lemma PresentAppend(slices: seq<Slice>, s: Slice, c: nat)
    ensures Present(slices + [s], c) <==> Present(slices, c) || s.commit == c
  {
    if Present(slices, c) {
      var i :| 0 <= i < |slices| && slices[i].commit == c;
      assert (slices + [s])[i].commit == c;
    }
    if s.commit == c { assert (slices + [s])[|slices|].commit == c; }
  }

  lemma {:induction false} TrailAppend(groups: seq<SliceGroup>, g: SliceGroup)
    ensures Trail(groups + [g]) == Trail(groups) + g.slices
  {
    assert (groups + [g])[..|groups|] == groups;
  }

  // ----- bounds and frontiers

  /** A group counts its paths and edges, holds each commit at most once, and keeps both bounds; only
      commits without paths can take it past the row bound. */
  ghost predicate Bounded(g: SliceGroup, maxRows: nat, maxEdges: nat) {
    && g.paths == PathsOf(g.slices) && g.edges == EdgeCount(g.slices)
    && g.edges <= Max(1, maxEdges)
    && g.Rows() <= Max(2, maxRows) + Bare(g.slices)
    && forall i, j :: 0 <= i < j < |g.slices| ==> g.slices[i].commit < g.slices[j].commit
  }

  /** `frontier` is the newest commit such that it and all earlier ones are complete. */
  ghost predicate IsFrontier(commits: seq<Commit>, trail: seq<Slice>, frontier: Option<nat>) {
    var n := if frontier.Some? then frontier.value + 1 else 0;
    && n <= |commits|
    && (forall c :: 0 <= c < n ==> Complete(commits, trail, c))
    && (n < |commits| ==> !Complete(commits, trail, n))
  }

  /** Slices name commits of the history, and only a commit without paths has an empty one. */
  ghost predicate Honest(commits: seq<Commit>, slices: seq<Slice>) {
    forall i :: 0 <= i < |slices| ==>
      slices[i].commit < |commits| && (slices[i].files == [] ==> commits[slices[i].commit].files == [])
  }

  ghost predicate Closed(commits: seq<Commit>, groups: seq<SliceGroup>, frontiers: seq<Option<nat>>, maxRows: nat,
      maxEdges: nat) {
    && |frontiers| == |groups|
    && forall i :: 0 <= i < |groups| ==>
         && Bounded(groups[i], maxRows, maxEdges) && groups[i].slices != [] && Honest(commits, groups[i].slices)
         && IsFrontier(commits, Trail(groups[..i + 1]), frontiers[i])
  }

  /** Closes the current group; the frontier is the newest commit seen that is not pending. */
  method CloseGroup(groups: seq<SliceGroup>, current: SliceGroup, frontiers: seq<Option<nat>>,
                    pending: set<nat>, seen: nat, commits: seq<Commit>, maxRows: nat, maxEdges: nat)
    returns (groups': seq<SliceGroup>, frontiers': seq<Option<nat>>)
    requires Closed(commits, groups, frontiers, maxRows, maxEdges) && Bounded(current, maxRows, maxEdges)
      && current.slices != []
    requires Honest(commits, current.slices)
    requires seen <= |commits|
    requires if pending == {} then seen == |commits| else seen > 0 && pending == {seen - 1}
    requires forall c :: 0 <= c < seen && c !in pending ==> Complete(commits, Trail(groups) + current.slices, c)
    requires forall c :: c in pending ==> c < |commits| && !Complete(commits, Trail(groups) + current.slices, c)
    ensures groups' == groups + [current]
    ensures Closed(commits, groups', frontiers', maxRows, maxEdges)
    ensures frontiers' == frontiers + [frontiers'[|groups|]]
  {
    var i: nat := seen;
    while i > 0 && i - 1 in pending
      invariant i <= seen && (forall c :: i <= c < seen ==> c in pending)
    {
      i := i - 1;
    }
    var frontier: Option<nat> := if i == 0 then None else Some(i - 1);
    ClosedAppend(commits, groups, current, frontiers, frontier, maxRows, maxEdges);
    groups', frontiers' := groups + [current], frontiers + [frontier];
  }

  lemma {:induction false} ClosedAppend(commits: seq<Commit>, groups: seq<SliceGroup>, current: SliceGroup,
      frontiers: seq<Option<nat>>,
                     frontier: Option<nat>, maxRows: nat, maxEdges: nat)
    requires Closed(commits, groups, frontiers, maxRows, maxEdges) && Bounded(current, maxRows, maxEdges)
      && current.slices != []
    requires Honest(commits, current.slices)
    requires IsFrontier(commits, Trail(groups) + current.slices, frontier)
    ensures Closed(commits, groups + [current], frontiers + [frontier], maxRows, maxEdges)
  {
    hide Bounded, IsFrontier, Trail;
    var more := groups + [current];
    TrailAppend(groups, current);
    assert more[..|groups| + 1] == more;
    forall k | 0 <= k < |groups|
      ensures IsFrontier(commits, Trail(more[..k + 1]), (frontiers + [frontier])[k])
    {
      assert more[..k + 1] == groups[..k + 1];
    }
  }

  // ----- the slicer

  /** Progress through commit `idx`: earlier commits are complete, `remaining` is what is left of this
      one, and the trail holds nothing of later ones. */
  ghost predicate Midway(commits: seq<Commit>, trail: seq<Slice>, idx: nat, remaining: seq<string>, placed: nat)
    requires idx < |commits|
  {
    && (forall c :: 0 <= c < idx ==> Complete(commits, trail, c))
    && FilesOf(trail, idx) + remaining == commits[idx].files
    && (placed > 0 <==> Present(trail, idx))
    && (placed == 0 ==> remaining == commits[idx].files)
    && (forall c :: c > idx ==> !Present(trail, c) && FilesOf(trail, c) == [])
  }

  lemma PlaceKeepsMidway(commits: seq<Commit>, trail: seq<Slice>, idx: nat, remaining: seq<string>, placed: nat,
      take: nat)
    requires idx < |commits| && Midway(commits, trail, idx, remaining, placed) && take <= |remaining|
    ensures Midway(commits, trail + [Slice(idx, remaining[..take])], idx, remaining[take..], placed + 1)
  {
    var s := Slice(idx, remaining[..take]);
    SliceAppend(trail, s);
    forall c: nat ensures Present(trail + [s], c) <==> Present(trail, c) || c == idx { PresentAppend(trail, s, c); }
    hide FilesOf, Present, PathsOf, EdgeCount, Bare;
    forall c | 0 <= c < idx ensures Complete(commits, trail + [s], c) { assert Complete(commits, trail, c); }
    assert FilesOf(trail, idx) + remaining[..take] + remaining[take..] == FilesOf(trail, idx) + remaining;
  }

  /** A slice joins the group. */
  function Placed(g: SliceGroup, slice: Slice): SliceGroup {
    SliceGroup(g.slices + [slice], g.paths + FileSet(slice.files), g.edges + |slice.files|)
  }

  /** Adding a slice to a group with room for it. */
  lemma PlaceKeepsBounds(g: SliceGroup, s: Slice, maxRows: nat, maxEdges: nat)
    requires Bounded(g, maxRows, maxEdges)
    requires forall i :: 0 <= i < |g.slices| ==> g.slices[i].commit < s.commit
    requires s.files != [] ==> g.edges + |s.files| <= Max(1, maxEdges)
    requires s.files != [] ==> g.Rows() + 1 + |FileSet(s.files) - g.paths| <= Max(2, maxRows) + Bare(g.slices)
    ensures Bounded(Placed(g, s), maxRows, maxEdges)
  {
    SliceAppend(g.slices, s);
    assert g.paths + FileSet(s.files) == g.paths + (FileSet(s.files) - g.paths);
    if s.files == [] { assert FileSet(s.files) == {}; }
  }

  /** Distinct new paths are at most the new paths counted. */
  lemma {:induction false} NewPaths(files: seq<string>, paths: set<string>)
    ensures |FileSet(files) - paths| <= CountNew(files, paths) <= |files|
  {
    if files != [] {
      var n := |files| - 1;
      NewPaths(files[..n], paths);
      assert files == files[..n] + [files[n]];
      if files[n] in paths {
        assert FileSet(files) - paths == FileSet(files[..n]) - paths;
      } else {
        assert FileSet(files) - paths == (FileSet(files[..n]) - paths) + {files[n]};
      }
    }
  }

  function CountNew(files: seq<string>, paths: set<string>): nat {
    if files == [] then 0
    else CountNew(files[..|files| - 1], paths) + (if files[|files| - 1] in paths then 0 else 1)
  }

  lemma {:induction false} CountNewPrefix(files: seq<string>, paths: set<string>, n: nat)
    requires n <= |files|
    ensures CountNew(files[..n], paths) <= CountNew(files, paths)
  {
    if n < |files| {
      CountNewPrefix(files[..|files| - 1], paths, n);
      assert files[..|files| - 1][..n] == files[..n];
    } else {
      assert files[..n] == files;
    }
  }

  /** How many paths the group may take: bounded by edge room and by row room, never none. */
  function Room(g: SliceGroup, maxRows: nat, maxEdges: nat): (r: nat)
    ensures r >= 1
  {
    Min(Max(SatSub(maxRows, g.Rows() + 1), 1), Max(SatSub(maxEdges, g.edges), 1))
  }

  predicate Fits(g: SliceGroup, remaining: seq<string>, maxRows: nat, maxEdges: nat) {
    g.slices == [] || (g.Rows() + 1 + CountNew(remaining, g.paths) <= maxRows && g.edges + |remaining| <= maxEdges)
  }

  /** What the room allows keeps the bounds of a group the commit fits. */
  lemma RoomIsSafe(g: SliceGroup, remaining: seq<string>, take: nat, maxRows: nat, maxEdges: nat)
    requires Bounded(g, maxRows, maxEdges) && remaining != [] && Fits(g, remaining, maxRows, maxEdges)
    requires take == Min(|remaining|, Room(g, maxRows, maxEdges))
    ensures 1 <= take <= |remaining|
    ensures g.edges + take <= Max(1, maxEdges)
    ensures g.Rows() + 1 + |FileSet(remaining[..take]) - g.paths| <= Max(2, maxRows) + Bare(g.slices)
  {
    NewPaths(remaining[..take], g.paths);
    CountNewPrefix(remaining, g.paths, take);
    if g.slices == [] {
      assert g.paths == {} && g.edges == 0;
    }
  }

  // ----- no unit is closed early, no slice is cut short

  /** The groups so far, the open one last. */
  function All(groups: seq<SliceGroup>, current: SliceGroup): seq<SliceGroup> {
    if current.slices == [] then groups else groups + [current]
  }

  /** What the trail has not yet taken of a commit. */
  function Rest(commits: seq<Commit>, trail: seq<Slice>, c: nat): seq<string> {
    if c < |commits| && |FilesOf(trail, c)| <= |commits[c].files| then commits[c].files[|FilesOf(trail, c)|..] else []
  }

  /** How many of these paths, each as often as it is listed, the group does not have yet. */
  function NewIn(files: seq<string>, paths: set<string>): nat {
    |set k | 0 <= k < |files| && files[k] !in paths|
  }

  /** The commit the next group opens with could not stay here: a slice of it is here already, or the rest of it would
      take the group over its rows or its edges. */
  ghost predicate NoRoom(commits: seq<Commit>, all: seq<SliceGroup>, i: nat, maxRows: nat, maxEdges: nat)
    requires i + 1 < |all| && all[i + 1].slices != []
  {
    var (g, c) := (all[i], all[i + 1].slices[0].commit);
    var rest := Rest(commits, Trail(all[..i + 1]), c);
    || Present(g.slices, c)
    || |g.slices| + |g.paths| + 1 + NewIn(rest, g.paths) > maxRows
    || g.edges + |rest| > maxEdges
  }

  /** A slice that leaves some of its commit for later takes all the room there is behind the slices before it, and one
      path where there is none. */
  ghost predicate Filled(commits: seq<Commit>, all: seq<SliceGroup>, i: nat, s: nat, maxRows: nat, maxEdges: nat)
    requires i < |all| && s < |all[i].slices|
  {
    var (before, slice) := (all[i].slices[..s], all[i].slices[s]);
    && slice.commit < |commits|
    && (|| FilesOf(Trail(all[..i]) + all[i].slices[..s + 1], slice.commit) == commits[slice.commit].files
        || |slice.files| == Min(Max(1, SatSub(maxRows, |before| + |PathsOf(before)| + 1)),
                                Max(1, SatSub(maxEdges, EdgeCount(before)))))
  }

  ghost predicate Packed(commits: seq<Commit>, all: seq<SliceGroup>, maxRows: nat, maxEdges: nat) {
    && (forall i :: 0 <= i < |all| ==> all[i].slices != [])
    && (forall i :: 0 <= i < |all| - 1 ==> NoRoom(commits, all, i, maxRows, maxEdges))
    && (forall i, s :: 0 <= i < |all| && 0 <= s < |all[i].slices| ==> Filled(commits, all, i, s, maxRows, maxEdges))
  }

  lemma {:induction false} NewInIsCounted(files: seq<string>, paths: set<string>)
    ensures NewIn(files, paths) == CountNew(files, paths)
  {
    if files != [] {
      var n := |files| - 1;
      NewInIsCounted(files[..n], paths);
      var fewer := set k | 0 <= k < n && files[..n][k] !in paths;
      assert (set k | 0 <= k < |files| && files[k] !in paths) == fewer + if files[n] in paths then {} else {n};
    }
  }

  /** A group that keeps its earlier slices keeps what they filled; so does one behind which a group is added. */
  lemma StaysFilled(commits: seq<Commit>, a: seq<SliceGroup>, b: seq<SliceGroup>, i: nat, s: nat, maxRows: nat,
      maxEdges: nat)
    requires i < |a| && i < |b| && s < |a[i].slices| && s < |b[i].slices|
    requires a[..i] == b[..i] && a[i].slices[..s + 1] == b[i].slices[..s + 1]
    requires Filled(commits, a, i, s, maxRows, maxEdges)
    ensures Filled(commits, b, i, s, maxRows, maxEdges)
  {
    assert a[i].slices[..s] == a[i].slices[..s + 1][..s] && b[i].slices[..s] == b[i].slices[..s + 1][..s];
    assert a[i].slices[s] == a[i].slices[..s + 1][s] && b[i].slices[s] == b[i].slices[..s + 1][s];
  }

  lemma StaysFull(commits: seq<Commit>, a: seq<SliceGroup>, b: seq<SliceGroup>, i: nat, maxRows: nat, maxEdges: nat)
    requires i + 1 < |a| && i + 1 < |b| && a[..i + 1] == b[..i + 1] && a[i + 1].slices != [] && b[i + 1].slices != []
    requires a[i + 1].slices[0] == b[i + 1].slices[0] && NoRoom(commits, a, i, maxRows, maxEdges)
    ensures NoRoom(commits, b, i, maxRows, maxEdges)
  {
    assert a[i] == a[..i + 1][i] && b[i] == b[..i + 1][i];
  }

  /** A slice joins the open group, or opens a group behind one without room. */
  lemma PlaceKeepsPacked(commits: seq<Commit>, groups: seq<SliceGroup>, current: SliceGroup, slice: Slice,
      maxRows: nat, maxEdges: nat)
    requires Packed(commits, All(groups, current), maxRows, maxEdges)
    requires var more := groups + [SliceGroup(current.slices + [slice], current.paths + FileSet(slice.files),
        current.edges + |slice.files|)];
      && Filled(commits, more, |groups|, |current.slices|, maxRows, maxEdges)
      && (current.slices == [] && groups != [] ==> NoRoom(commits, more, |groups| - 1, maxRows, maxEdges))
    ensures Packed(commits, groups + [SliceGroup(current.slices + [slice], current.paths + FileSet(slice.files),
      current.edges + |slice.files|)], maxRows, maxEdges)
  {
    var g := Placed(current, slice);
    var (all, more) := (All(groups, current), groups + [g]);
    hide NoRoom, Filled, FileSet;
    assert forall i :: 0 <= i < |groups| ==> groups[i] == all[i];
    forall i | 0 <= i < |more| - 1 ensures NoRoom(commits, more, i, maxRows, maxEdges) {
      if i + 1 < |all| {
        assert all[..i + 1] == more[..i + 1];
        StaysFull(commits, all, more, i, maxRows, maxEdges);
      }
    }
    forall i, s | 0 <= i < |more| && 0 <= s < |more[i].slices| ensures Filled(commits, more, i, s, maxRows, maxEdges) {
      if i < |groups| {
        assert all[..i] == more[..i] && all[i] == more[i];
        StaysFilled(commits, all, more, i, s, maxRows, maxEdges);
      } else if s < |current.slices| {
        assert all[..i] == more[..i] && all[i].slices[..s + 1] == more[i].slices[..s + 1];
        StaysFilled(commits, all, more, i, s, maxRows, maxEdges);
      }
    }
  }

  /** Why a group was closed before this much of the commit was placed. */
  ghost predicate ClosedFor(g: SliceGroup, idx: nat, remaining: seq<string>, maxRows: nat, maxEdges: nat) {
    Present(g.slices, idx) || !Fits(g, remaining, maxRows, maxEdges)
  }

  lemma {:induction false} ClosedForIsNoRoom(commits: seq<Commit>, groups: seq<SliceGroup>, g: SliceGroup, idx: nat,
      remaining: seq<string>, placed: nat, maxRows: nat, maxEdges: nat)
    requires groups != [] && g.slices != [] && g.slices[0].commit == idx < |commits|
    requires Midway(commits, Trail(groups), idx, remaining, placed)
    requires ClosedFor(groups[|groups| - 1], idx, remaining, maxRows, maxEdges)
    ensures NoRoom(commits, groups + [g], |groups| - 1, maxRows, maxEdges)
  {
    assert (groups + [g])[..|groups|] == groups;
    NewInIsCounted(remaining, groups[|groups| - 1].paths);
    hide Trail, NewIn, CountNew, FilesOf, Present;
    assert commits[idx].files[|FilesOf(Trail(groups), idx)|..] == remaining;
  }

  lemma {:induction false} SliceIsFilled(commits: seq<Commit>, groups: seq<SliceGroup>, current: SliceGroup,
      g: SliceGroup, idx: nat,
      remaining: seq<string>, placed: nat, take: nat, maxRows: nat, maxEdges: nat)
    requires Bounded(current, maxRows, maxEdges) && idx < |commits|
    requires Midway(commits, Trail(groups) + current.slices, idx, remaining, placed)
    requires take <= |remaining| && (take == |remaining| || take == Room(current, maxRows, maxEdges))
    requires g.slices == current.slices + [Slice(idx, remaining[..take])]
    ensures Filled(commits, groups + [g], |groups|, |current.slices|, maxRows, maxEdges)
  {
    hide FilesOf, Trail, PathsOf, EdgeCount;
    var s := |current.slices|;
    assert (groups + [g])[..|groups|] == groups && g.slices[..s] == current.slices && g.slices[..s + 1] == g.slices;
    if take == |remaining| {
      PlaceKeepsMidway(commits, Trail(groups) + current.slices, idx, remaining, placed, take);
      assert Trail(groups) + current.slices + [Slice(idx, remaining[..take])] == Trail(groups) + g.slices;
      assert FilesOf(Trail(groups) + g.slices, idx) + remaining[take..] == commits[idx].files;
      assert FilesOf(Trail(groups) + g.slices, idx) == commits[idx].files;
    }
  }

  lemma {:induction false} SliceKeepsPacked(commits: seq<Commit>, groups: seq<SliceGroup>, current: SliceGroup,
      idx: nat,
      remaining: seq<string>, placed: nat, take: nat, maxRows: nat, maxEdges: nat)
    requires Packed(commits, All(groups, current), maxRows, maxEdges) && Bounded(current, maxRows, maxEdges)
    requires idx < |commits| && Midway(commits, Trail(groups) + current.slices, idx, remaining, placed)
    requires take <= |remaining| && (take == |remaining| || take == Room(current, maxRows, maxEdges))
    requires current.slices == [] && groups != [] ==>
      ClosedFor(groups[|groups| - 1], idx, remaining, maxRows, maxEdges)
    ensures Packed(commits, All(groups, Placed(current, Slice(idx, remaining[..take]))), maxRows, maxEdges)
  {
    hide Packed, Filled, NoRoom, Bounded, Midway, ClosedFor, FileSet, Trail, All, Room;
    var slice := Slice(idx, remaining[..take]);
    var g := Placed(current, slice);
    SliceIsFilled(commits, groups, current, g, idx, remaining, placed, take, maxRows, maxEdges);
    if current.slices == [] && groups != [] {
      assert Trail(groups) + current.slices == Trail(groups);
      ClosedForIsNoRoom(commits, groups, g, idx, remaining, placed, maxRows, maxEdges);
    }
    PlaceKeepsPacked(commits, groups, current, slice, maxRows, maxEdges);
    assert All(groups, g) == groups + [g] by { OpenIsLast(groups, g); }
  }

  lemma OpenIsLast(groups: seq<SliceGroup>, current: SliceGroup)
    requires current.slices != []
    ensures All(groups, current) == groups + [current]
  {
  }

  ghost predicate Working(commits: seq<Commit>, groups: seq<SliceGroup>, current: SliceGroup,
      frontiers: seq<Option<nat>>,
                          maxRows: nat, maxEdges: nat) {
    Closed(commits, groups, frontiers, maxRows, maxEdges) && Bounded(current, maxRows, maxEdges)
      && Honest(commits, current.slices)
  }

  /** The current group holds nothing of commit `idx` or later. */
  ghost predicate Before(g: SliceGroup, idx: nat) {
    forall i :: 0 <= i < |g.slices| ==> g.slices[i].commit < idx
  }

  /** Closing mid-commit reports the commit before. */
  method CloseMidway(groups: seq<SliceGroup>, current: SliceGroup, frontiers: seq<Option<nat>>,
                     commits: seq<Commit>, idx: nat, ghost remaining: seq<string>, ghost placed: nat, maxRows: nat,
                       maxEdges: nat)
    returns (groups': seq<SliceGroup>, frontiers': seq<Option<nat>>)
    requires Working(commits, groups, current, frontiers, maxRows, maxEdges) && current.slices != []
    requires idx < |commits| && remaining != []
      && Midway(commits, Trail(groups) + current.slices, idx, remaining, placed)
    ensures groups' == groups + [current] && Working(commits, groups', EMPTY_GROUP, frontiers', maxRows, maxEdges)
    ensures Midway(commits, Trail(groups') + EMPTY_GROUP.slices, idx, remaining, placed)
  {
    hide Bounded, FilesOf;
    groups', frontiers' := CloseGroup(groups, current, frontiers, {idx}, idx + 1, commits, maxRows, maxEdges);
    TrailAppend(groups, current);
    assert Trail(groups') + [] == Trail(groups');
    EmptyBounded(maxRows, maxEdges);
  }

  lemma EmptyBounded(maxRows: nat, maxEdges: nat)
    ensures Bounded(EMPTY_GROUP, maxRows, maxEdges)
  {
  }

  /** A slice as long as the room allows keeps the group's bounds. */
  lemma PlacedIsBounded(current: SliceGroup, idx: nat, remaining: seq<string>, take: nat, maxRows: nat, maxEdges: nat)
    requires Bounded(current, maxRows, maxEdges) && Before(current, idx)
    requires if remaining == [] then take == 0
      else Fits(current, remaining, maxRows, maxEdges) && take == Min(|remaining|, Room(current, maxRows, maxEdges))
    ensures take <= |remaining| && (take == 0 ==> remaining == [])
    ensures take == |remaining| || take == Room(current, maxRows, maxEdges)
    ensures Bounded(Placed(current, Slice(idx, remaining[..take])), maxRows, maxEdges)
    ensures Before(Placed(current, Slice(idx, remaining[..take])), idx + 1)
  {
    hide Bounded, Fits, Room;
    if remaining != [] { RoomIsSafe(current, remaining, take, maxRows, maxEdges); }
    PlaceKeepsBounds(current, Slice(idx, remaining[..take]), maxRows, maxEdges);
  }

  lemma {:induction false} PlacedIsPresent(commits: seq<Commit>, groups: seq<SliceGroup>, current: SliceGroup, idx: nat,
      remaining: seq<string>, placed: nat, take: nat)
    requires idx < |commits| && Midway(commits, Trail(groups) + current.slices, idx, remaining, placed)
    requires Honest(commits, current.slices) && take <= |remaining| && (take == 0 ==> commits[idx].files == [])
    ensures var next := Placed(current, Slice(idx, remaining[..take]));
      && Honest(commits, next.slices) && Present(next.slices, idx)
      && Midway(commits, Trail(groups) + next.slices, idx, remaining[take..], placed + 1)
  {
    hide Midway, Present, Trail, FileSet;
    var slice := Slice(idx, remaining[..take]);
    PlaceKeepsMidway(commits, Trail(groups) + current.slices, idx, remaining, placed, take);
    assert Trail(groups) + current.slices + [slice] == Trail(groups) + (current.slices + [slice]);
    PresentAppend(current.slices, slice, idx);
  }

  /** Closes the open group if it holds a slice of this commit, or if the rest of the commit does not fit. */
  method MakeRoom(commits: seq<Commit>, idx: nat, remaining: seq<string>, placed: nat, groups0: seq<SliceGroup>,
                  current0: SliceGroup, frontiers0: seq<Option<nat>>, maxRows: nat, maxEdges: nat)
    returns (groups: seq<SliceGroup>, current: SliceGroup, frontiers: seq<Option<nat>>)
    requires Working(commits, groups0, current0, frontiers0, maxRows, maxEdges) && idx < |commits| && remaining != []
    requires Midway(commits, Trail(groups0) + current0.slices, idx, remaining, placed)
    requires Packed(commits, All(groups0, current0), maxRows, maxEdges) && (current0.slices == [] ==> groups0 == [])
    requires if placed == 0 then Before(current0, idx) else current0.slices != [] && Present(current0.slices, idx)
    ensures Working(commits, groups, current, frontiers, maxRows, maxEdges) && Before(current, idx)
    ensures Midway(commits, Trail(groups) + current.slices, idx, remaining, placed)
    ensures Packed(commits, All(groups, current), maxRows, maxEdges) && Fits(current, remaining, maxRows, maxEdges)
    ensures current.slices == [] && groups != [] ==>
      ClosedFor(groups[|groups| - 1], idx, remaining, maxRows, maxEdges)
  {
    hide Closed, FilesOf, Trail, Midway, Bounded, Fits, Packed, Present;
    groups, current, frontiers := groups0, current0, frontiers0;
    if placed > 0 && current.slices != [] {
      groups, frontiers := CloseMidway(groups, current, frontiers, commits, idx, remaining, placed, maxRows, maxEdges);
      current := EMPTY_GROUP;
      EmptyFits(remaining, maxRows, maxEdges);
    }
    if !Fits(current, remaining, maxRows, maxEdges) {
      NonemptyUnlessFits(current, remaining, maxRows, maxEdges);
      groups, frontiers := CloseMidway(groups, current, frontiers, commits, idx, remaining, placed, maxRows, maxEdges);
      current := EMPTY_GROUP;
      EmptyFits(remaining, maxRows, maxEdges);
    }
  }

  /** Places all slices of one commit. */
  method PlaceCommit(commits: seq<Commit>, idx: nat, groups0: seq<SliceGroup>, current0: SliceGroup,
      frontiers0: seq<Option<nat>>,
                     maxRows: nat, maxEdges: nat)
    returns (groups: seq<SliceGroup>, current: SliceGroup, frontiers: seq<Option<nat>>)
    requires Working(commits, groups0, current0, frontiers0, maxRows, maxEdges) && idx < |commits|
      && Before(current0, idx)
    requires Midway(commits, Trail(groups0) + current0.slices, idx, commits[idx].files, 0)
    requires Packed(commits, All(groups0, current0), maxRows, maxEdges) && (current0.slices == [] ==> groups0 == [])
    ensures Working(commits, groups, current, frontiers, maxRows, maxEdges) && Before(current, idx + 1)
      && current.slices != []
    ensures Midway(commits, Trail(groups) + current.slices, idx, [], 1)
    ensures Packed(commits, All(groups, current), maxRows, maxEdges)
  {
    hide Closed, FilesOf, Trail, PathsOf, EdgeCount, Midway, Bounded, Fits, Room, Packed, Present, All, ClosedFor,
      FileSet;
    groups, current, frontiers := groups0, current0, frontiers0;
    var remaining, placed := commits[idx].files, 0;
    while remaining != []
      invariant placed >= 0 && Working(commits, groups, current, frontiers, maxRows, maxEdges)
      invariant Midway(commits, Trail(groups) + current.slices, idx, remaining, placed)
      invariant Before(current, if placed == 0 then idx else idx + 1)
      invariant placed > 0 ==> current.slices != [] && Present(current.slices, idx)
      invariant placed == 0 ==> remaining == commits[idx].files
      invariant Packed(commits, All(groups, current), maxRows, maxEdges) && (current.slices == [] ==> groups == [])
      decreases |remaining|
    {
      groups, current, frontiers := MakeRoom(commits, idx, remaining, placed, groups, current, frontiers, maxRows,
        maxEdges);
      var take := Min(|remaining|, Room(current, maxRows, maxEdges));
      PlacedIsBounded(current, idx, remaining, take, maxRows, maxEdges);
      PlacedIsPresent(commits, groups, current, idx, remaining, placed, take);
      SliceKeepsPacked(commits, groups, current, idx, remaining, placed, take, maxRows, maxEdges);
      current := Placed(current, Slice(idx, remaining[..take]));
      remaining, placed := remaining[take..], placed + 1;
    }
    if placed == 0 {
      PlacedIsBounded(current, idx, remaining, 0, maxRows, maxEdges);
      PlacedIsPresent(commits, groups, current, idx, remaining, placed, 0);
      SliceKeepsPacked(commits, groups, current, idx, remaining, placed, 0, maxRows, maxEdges);
      current := Placed(current, Slice(idx, []));
    }
    MidwayOnce(commits, Trail(groups) + current.slices, idx, if placed == 0 then 1 else placed);
  }

  lemma NonemptyUnlessFits(g: SliceGroup, remaining: seq<string>, maxRows: nat, maxEdges: nat)
    requires !Fits(g, remaining, maxRows, maxEdges)
    ensures g.slices != []
  {
  }

  lemma EmptyFits(remaining: seq<string>, maxRows: nat, maxEdges: nat)
    ensures Fits(EMPTY_GROUP, remaining, maxRows, maxEdges)
  {
  }

  lemma MidwayOnce(commits: seq<Commit>, trail: seq<Slice>, idx: nat, placed: nat)
    requires idx < |commits| && placed > 0 && Midway(commits, trail, idx, [], placed)
    ensures Midway(commits, trail, idx, [], 1)
  {
  }

  /** Every commit has a row, and its slices in unit order spell out its paths. */
  ghost predicate Conserves(commits: seq<Commit>, groups: seq<SliceGroup>) {
    forall c :: 0 <= c < |commits| ==> Complete(commits, Trail(groups), c)
  }

  ghost predicate AllBefore(commits: seq<Commit>, trail: seq<Slice>, n: nat)
    requires n <= |commits|
  {
    && (forall c :: 0 <= c < n ==> Complete(commits, trail, c))
    && (forall c :: c >= n ==> !Present(trail, c) && FilesOf(trail, c) == [])
  }

  lemma StartCommit(commits: seq<Commit>, trail: seq<Slice>, idx: nat)
    requires idx < |commits| && AllBefore(commits, trail, idx)
    ensures Midway(commits, trail, idx, commits[idx].files, 0)
  {
    assert FilesOf(trail, idx) == [];
  }

  lemma FinishCommit(commits: seq<Commit>, trail: seq<Slice>, idx: nat)
    requires idx < |commits| && Midway(commits, trail, idx, [], 1)
    ensures AllBefore(commits, trail, idx + 1)
  {
    assert FilesOf(trail, idx) + [] == FilesOf(trail, idx);
  }

  /** The whole history: nothing is lost or repeated, each group keeps its bounds, and each frontier is
      sound and maximal, no group is closed while the next commit fits, and no slice is shorter than it must be. */
  method MapHistoryBounded(commits: seq<Commit>, maxRows: nat, maxEdges: nat)
    returns (groups: seq<SliceGroup>, frontiers: seq<Option<nat>>)
    ensures Conserves(commits, groups)
    ensures Closed(commits, groups, frontiers, maxRows, maxEdges)
    ensures Packed(commits, groups, maxRows, maxEdges)
  {
    groups, frontiers := [], [];
    var current := EMPTY_GROUP;
    EmptyBounded(maxRows, maxEdges);
    NothingIsPacked(commits, maxRows, maxEdges);
    hide Bounded, FilesOf, Complete, Packed;
    assert Trail([]) + current.slices == [];
    EmptyTrail(commits);
    for idx := 0 to |commits|
      invariant Working(commits, groups, current, frontiers, maxRows, maxEdges) && Before(current, idx)
      invariant AllBefore(commits, Trail(groups) + current.slices, idx)
      invariant current.slices == [] ==> groups == []
      invariant idx > 0 ==> current.slices != []
      invariant Packed(commits, All(groups, current), maxRows, maxEdges)
    {
      hide Closed, AllBefore, Midway, Trail;
      StartCommit(commits, Trail(groups) + current.slices, idx);
      groups, current, frontiers := PlaceCommit(commits, idx, groups, current, frontiers, maxRows, maxEdges);
      FinishCommit(commits, Trail(groups) + current.slices, idx);
    }
    if current.slices != [] {
      TrailAppend(groups, current);
      groups, frontiers := CloseGroup(groups, current, frontiers, {}, |commits|, commits, maxRows, maxEdges);
    } else {
      assert commits == [];
    }
  }

  lemma NothingIsPacked(commits: seq<Commit>, maxRows: nat, maxEdges: nat)
    ensures Packed(commits, [], maxRows, maxEdges)
  {
  }

  lemma EmptyTrail(commits: seq<Commit>)
    ensures AllBefore(commits, [], 0)
  {
  }

  /** Without commits that touch nothing, every unit keeps the row bound. */
  lemma {:induction false} NoBareRows(commits: seq<Commit>, slices: seq<Slice>)
    requires Honest(commits, slices) && forall c :: 0 <= c < |commits| ==> commits[c].files != []
    ensures Bare(slices) == 0
  {
    if slices != [] { NoBareRows(commits, slices[..|slices| - 1]); }
  }

  /** The promised bounds: at least one edge and two rows allowed, every commit touching a path. */
  lemma UnitsKeepBounds(commits: seq<Commit>, groups: seq<SliceGroup>, frontiers: seq<Option<nat>>, maxRows: nat,
      maxEdges: nat, i: nat)
    requires Closed(commits, groups, frontiers, maxRows, maxEdges) && i < |groups| && maxRows >= 2 && maxEdges >= 1
    ensures groups[i].edges <= maxEdges
    ensures (forall c :: 0 <= c < |commits| ==> commits[c].files != []) ==> groups[i].Rows() <= maxRows
  {
    if forall c :: 0 <= c < |commits| ==> commits[c].files != [] {
      NoBareRows(commits, groups[i].slices);
    }
  }

  /** Later units never report an older frontier. */
  lemma FrontiersAdvance(commits: seq<Commit>, groups: seq<SliceGroup>, frontiers: seq<Option<nat>>, maxRows: nat,
      maxEdges: nat, i: nat)
    requires Closed(commits, groups, frontiers, maxRows, maxEdges) && Conserves(commits, groups) && i + 1 < |groups|
    ensures frontiers[i].Some? ==> frontiers[i + 1].Some? && frontiers[i].value <= frontiers[i + 1].value
  {
    hide Bounded;
    var (a, b) := (Trail(groups[..i + 1]), Trail(groups[..i + 2]));
    assert groups[..i + 2] == groups[..i + 1] + [groups[i + 1]];
    TrailAppend(groups[..i + 1], groups[i + 1]);
    assert IsFrontier(commits, a, frontiers[i]) && IsFrontier(commits, b, frontiers[i + 1]);
    if frontiers[i].Some? && (frontiers[i + 1].None? || frontiers[i + 1].value < frontiers[i].value) {
      var n := if frontiers[i + 1].Some? then frontiers[i + 1].value + 1 else 0;
      assert Complete(commits, a, n);
      StaysComplete(commits, groups, i + 1, i + 2, n);
    }
  }

  lemma {:induction false} FilesGrow(trail: seq<Slice>, more: seq<Slice>, c: nat)
    ensures FilesOf(trail, c) <= FilesOf(trail + more, c)
  {
    if more == [] {
      assert trail + more == trail;
    } else {
      var n := |more| - 1;
      FilesGrow(trail, more[..n], c);
      assert trail + more == (trail + more[..n]) + [more[n]];
      SliceAppend(trail + more[..n], more[n]);
    }
  }

  lemma {:induction false} TrailPrefix(groups: seq<SliceGroup>, i: nat)
    requires i <= |groups|
    ensures Trail(groups[..i]) <= Trail(groups)
  {
    if i < |groups| {
      var n := |groups| - 1;
      TrailPrefix(groups[..n], i);
      assert groups[..n][..i] == groups[..i];
    } else {
      assert groups[..i] == groups;
    }
  }

  /** A commit complete at some unit stays complete: nothing is ever added to it. */
  lemma StaysComplete(commits: seq<Commit>, groups: seq<SliceGroup>, i: nat, j: nat, c: nat)
    requires Conserves(commits, groups) && i <= j <= |groups| && c < |commits|
      && Complete(commits, Trail(groups[..i]), c)
    ensures Complete(commits, Trail(groups[..j]), c)
  {
    var (a, b, all) := (Trail(groups[..i]), Trail(groups[..j]), Trail(groups));
    TrailPrefix(groups[..j], i);
    assert groups[..j][..i] == groups[..i];
    TrailPrefix(groups, j);
    FilesGrow(a, b[|a|..], c);
    FilesGrow(b, all[|b|..], c);
    assert a + b[|a|..] == b && b + all[|b|..] == all;
    var k :| 0 <= k < |a| && a[k].commit == c;
    assert b[k].commit == c;
    assert Complete(commits, all, c);
  }
}
