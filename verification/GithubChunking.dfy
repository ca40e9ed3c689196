/** `chunk_windows` as it runs: one pass over sorted groups with a row counter and a running set of
    seen identities. */
module GithubChunking {
  import opened Common
  import opened Sorting
  import opened GithubWindows

  method CollectCarried(pulls: seq<Pull>) returns (carried: set<Ident>)
    ensures carried == Carried(pulls)
  {
    carried := {};
    for i := 0 to |pulls|
      invariant carried == Carried(pulls[..i])
    {
      assert pulls[..i + 1][..i] == pulls[..i];
      var refs := Idents(pulls[i].closing);
      for k := 0 to |refs|
        invariant carried == Carried(pulls[..i]) + set x | x in refs[..k]
      {
        carried := carried + {refs[k]};
      }
      assert refs[..|refs|] == refs;
    }
    assert pulls[..|pulls|] == pulls;
  }

  method CollectStandalone(issues: seq<Issue>, carried: set<Ident>) returns (groups: seq<Group>)
    ensures groups == StandaloneGroups(issues, carried)
  {
    groups := [];
    for i := 0 to |issues|
      invariant groups == StandaloneGroups(issues[..i], carried)
    {
      assert issues[..i + 1][..i] == issues[..i];
      if IdentOf(issues[i]) !in carried {
        groups := groups + [StandaloneGroup(issues[i])];
      }
    }
    assert issues[..|issues|] == issues;
  }

  lemma {:induction false} FirstTooWideIs(pulls: seq<Pull>, maxWindow: nat, i: nat)
    requires i < |pulls| && TooWide(pulls[i], maxWindow) && forall k :: 0 <= k < i ==> !TooWide(pulls[k], maxWindow)
    ensures FirstTooWide(pulls, maxWindow) == |pulls[i].closing|
  {
    if i > 0 {
      assert pulls[1..][i - 1] == pulls[i];
      FirstTooWideIs(pulls[1..], maxWindow, i - 1);
    }
  }

  /** Groups each pull with its references, refusing the first that cannot fit a window. */
  method CollectPulls(pulls: seq<Pull>, maxWindow: nat) returns (r: Result<seq<Group>, nat>)
    ensures r.Err? <==> exists i :: 0 <= i < |pulls| && TooWide(pulls[i], maxWindow)
    ensures r.Err? ==> r.error == FirstTooWide(pulls, maxWindow)
    ensures r.Ok? ==> r.value == PullGroups(pulls)
  {
    var groups := [];
    for i := 0 to |pulls|
      invariant groups == PullGroups(pulls[..i])
      invariant forall k :: 0 <= k < i ==> !TooWide(pulls[k], maxWindow)
    {
      if TooWide(pulls[i], maxWindow) {
        FirstTooWideIs(pulls, maxWindow, i);
        return Err(|pulls[i].closing|);
      }
      groups := groups + [PullGroup(pulls[i])];
    }
    assert pulls[..|pulls|] == pulls;
    r := Ok(groups);
  }

  /** Appends the rows the window has not seen yet. */
  method AddRows(rows: seq<Issue>, ghost before: seq<Issue>, issues0: seq<Issue>, seen0: set<Ident>)
      returns (issues: seq<Issue>, seen: set<Ident>)
    requires issues0 == Deduped(before)
    requires forall x :: x in seen0 <==> x in Idents(issues0)
    ensures issues == Deduped(before + rows)
    ensures forall x :: x in seen <==> x in Idents(issues)
  {
    issues, seen := issues0, seen0;
    assert before + rows[..0] == before;
    for i := 0 to |rows|
      invariant issues == Deduped(before + rows[..i])
      invariant forall x :: x in seen <==> x in Idents(issues)
    {
      hide Deduped;
      assert before + rows[..i + 1] == before + rows[..i] + [rows[i]];
      DedupedStep(before + rows[..i], rows[i]);
      if IdentOf(rows[i]) !in seen {
        seen := seen + {IdentOf(rows[i])};
        issues := issues + [rows[i]];
      }
    }
    assert rows[..|rows|] == rows;
  }

  /** `done` and the open `part` are the reference's cut of what has been placed. */
  ghost predicate Placed(gs: seq<Group>, maxWindow: nat, done: seq<seq<Group>>, part: seq<Group>) {
    if gs == [] then done == [] && part == []
    else part != [] && Cut(gs, maxWindow) == done + [part]
  }

  lemma {:induction false} PlaceGroup(gs: seq<Group>, g: Group, maxWindow: nat, done: seq<seq<Group>>, part: seq<Group>)
    requires Placed(gs, maxWindow, done, part)
    ensures if part != [] && Rows(part) + g.Cost() > maxWindow
      then Placed(gs + [g], maxWindow, done + [part], [g])
      else Placed(gs + [g], maxWindow, done, part + [g])
  {
    assert (gs + [g])[..|gs|] == gs;
    if gs == [] {
      assert gs + [g] == [g] && part + [g] == [g];
      assert Cut([], maxWindow) == [];
    } else {
      var parts := Cut(gs, maxWindow);
      assert parts[..|parts| - 1] == done && parts[|parts| - 1] == part;
    }
  }

  lemma {:induction false} GrowWindow(part: seq<Group>, g: Group)
    ensures Rows(part + [g]) == Rows(part) + g.Cost()
    ensures IssuesIn(part + [g]) == IssuesIn(part) + g.issues
    ensures PullsIn(part + [g]) == PullsIn(part) + if g.pull.Some? then [g.pull.value] else []
  {
    assert (part + [g])[..|part|] == part;
  }

  lemma CloseWindow(done: seq<seq<Group>>, part: seq<Group>)
    ensures WindowsOf(done + [part]) == WindowsOf(done) + [WindowOf(part)]
  {
  }

  lemma EmptyPart()
    ensures WindowOf([]) == Window([], []) && Rows([]) == 0 && IssuesIn([]) == [] && PullsIn([]) == []
      && Deduped([]) == []
  {
  }

  lemma {:induction false} PlacedAll(gs: seq<Group>, maxWindow: nat, done: seq<seq<Group>>, part: seq<Group>)
    requires Placed(gs, maxWindow, done, part)
    ensures WindowsOf(Cut(gs, maxWindow)) == if part == [] then WindowsOf(done) else WindowsOf(done) + [WindowOf(part)]
  {
    CloseWindow(done, part);
    assert Cut([], maxWindow) == [];
  }

  /** The loop's variables show `part` as the open window and `done` as the closed ones. */
  ghost predicate Tracks(done: seq<seq<Group>>, part: seq<Group>, out: seq<Window>, open: Window, rows: nat,
      seen: set<Ident>) {
    && (forall g :: g in part ==> Whole(g))
    && out == WindowsOf(done) && open == WindowOf(part) && rows == Rows(part)
    && forall x :: x in seen <==> x in Idents(open.issues)
  }

  /** Adds one group to the open window. */
  method JoinWindow(group: Group, ghost done: seq<seq<Group>>, ghost part: seq<Group>, ghost out: seq<Window>,
                    open: Window, rows: nat, seen: set<Ident>) returns (open': Window, rows': nat, seen': set<Ident>)
    requires Tracks(done, part, out, open, rows, seen) && Whole(group)
    ensures Tracks(done, part + [group], out, open', rows', seen')
  {
    hide Whole, IssuesIn, PullsIn, Rows, Deduped;
    GrowWindow(part, group);
    var issues;
    issues, seen' := AddRows(group.issues, IssuesIn(part), open.issues, seen);
    open' := Window(issues, if group.pull.Some? then open.pulls + [group.pull.value] else open.pulls);
    rows' := rows + group.Cost();
  }

  lemma {:induction false} OpenShowsPart(done: seq<seq<Group>>, part: seq<Group>, out: seq<Window>, open: Window,
      rows: nat,
      seen: set<Ident>)
    requires Tracks(done, part, out, open, rows, seen)
    ensures (open.issues == [] && open.pulls == []) <==> part == []
    ensures rows == Rows(part)
    ensures Tracks(done + [part], [], out + [open], Window([], []), 0, {})
  {
    if part != [] { PartIsNotEmpty(part); }
    CloseWindow(done, part);
    EmptyPart();
    hide Whole, IssuesIn, PullsIn, Rows, Deduped, WindowOf;
  }

  lemma NothingPlaced(maxWindow: nat)
    ensures Placed([], maxWindow, [], []) && Tracks([], [], [], Window([], []), 0, {})
  {
    EmptyPart();
  }

  lemma {:induction false} AllPlaced(gs: seq<Group>, maxWindow: nat, done: seq<seq<Group>>, part: seq<Group>,
      out: seq<Window>,
      open: Window, rows: nat, seen: set<Ident>)
    requires Placed(gs, maxWindow, done, part) && Tracks(done, part, out, open, rows, seen)
    ensures WindowsOf(Cut(gs, maxWindow)) == if open.issues != [] || open.pulls != [] then out + [open] else out
  {
    OpenShowsPart(done, part, out, open, rows, seen);
    PlacedAll(gs, maxWindow, done, part);
    hide Placed, Cut, Rows, WindowOf, Whole;
  }

  /** The packing pass. */
  method PackGroups(groups: seq<Group>, maxWindow: nat) returns (out: seq<Window>)
    requires forall g :: g in groups ==> Whole(g)
    ensures out == WindowsOf(Cut(groups, maxWindow))
  {
    hide Placed, Tracks, Rows, Whole, Cut;
    out := [];
    var open: Window, rows: nat, seen: set<Ident> := Window([], []), 0, {};
    ghost var done: seq<seq<Group>>, part: seq<Group> := [], [];
    NothingPlaced(maxWindow);
    for i := 0 to |groups|
      invariant Placed(groups[..i], maxWindow, done, part)
      invariant Tracks(done, part, out, open, rows, seen)
    {
      var group := groups[i];
      OpenShowsPart(done, part, out, open, rows, seen);
      PlaceGroup(groups[..i], group, maxWindow, done, part);
      assert groups[..i + 1] == groups[..i] + [group];
      if rows + group.Cost() > maxWindow && !(open.issues == [] && open.pulls == []) {
        out := out + [open];
        done, part := done + [part], [];
        assert part + [group] == [group];
        open, rows, seen := Window([], []), 0, {};
      }
      open, rows, seen := JoinWindow(group, done, part, out, open, rows, seen);
      part := part + [group];
    }
    assert groups[..|groups|] == groups;
    AllPlaced(groups, maxWindow, done, part, out, open, rows, seen);
    if open.issues != [] || open.pulls != [] {
      out := out + [open];
    }
  }

  method ChunkWindows(issues: seq<Issue>, pulls: seq<Pull>, maxWindow: nat) returns (r: Result<seq<Window>, nat>)
    ensures r == Windows(issues, pulls, maxWindow)
  {
    var carried := CollectCarried(pulls);
    var groups := CollectStandalone(issues, carried);
    var pullGroups := CollectPulls(pulls, maxWindow);
    if pullGroups.Err? { return Err(pullGroups.error); }
    groups := StableSort(groups + pullGroups.value, KeyLe);
    OrderedGroups(issues, pulls);
    var out := PackGroups(groups, maxWindow);
    r := Ok(out);
  }
}
