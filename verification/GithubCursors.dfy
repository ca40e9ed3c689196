/** Window cursors: what a group shows of its newest row, when cursors move back, and what a cursor is past. */
module GithubCursors {
  import opened Common
  import opened Sorting
  import opened GithubWindows

  // ----- cursors

  /** What a group's own rows show as their newest: one row per identity, the oldest of each, and the pull. */
  function ShownKey(g: Group): Stamp {
    Newest(Deduped(g.issues), if g.pull.Some? then g.pull.value.updatedAt else 0)
  }

  /** The pull's group shows the newest row it is placed by. */
  predicate Shown(p: Pull) { ShownKey(PullGroup(p)) == PullGroup(p).key }

  ghost predicate AllShown(pulls: seq<Pull>) {
    forall i :: 0 <= i < |pulls| ==> Shown(pulls[i])
  }

  /** References to one identity agree on when it was updated. */
  ghost predicate Coherent(s: seq<Issue>) {
    forall i, j :: 0 <= i < |s| && 0 <= j < |s| && IdentOf(s[i]) == IdentOf(s[j]) ==> s[i].updatedAt == s[j].updatedAt
  }

  lemma DistinctIsCoherent(s: seq<Issue>)
    requires Distinct(Idents(s))
    ensures Coherent(s)
  {
    forall i, j | 0 <= i < |s| && 0 <= j < |s| && IdentOf(s[i]) == IdentOf(s[j])
      ensures s[i].updatedAt == s[j].updatedAt
    {
      assert Idents(s)[i] == Idents(s)[j];
    }
  }

  lemma {:induction false} DedupedPrefix(a: seq<Issue>, b: seq<Issue>)
    ensures Deduped(a) <= Deduped(a + b)
  {
    if b == [] {
      assert a + b == a;
    } else {
      assert (a + b)[..|a| + |b| - 1] == a + b[..|b| - 1];
      DedupedPrefix(a, b[..|b| - 1]);
    }
  }

  lemma {:induction false} FirstIssuesLead(part: seq<Group>)
    requires part != []
    ensures part[0].issues <= IssuesIn(part)
  {
    if |part| > 1 {
      FirstIssuesLead(part[..|part| - 1]);
    } else {
      assert IssuesIn(part[..0]) == [];
    }
  }

  lemma FirstRowsLead(part: seq<Group>)
    requires part != []
    ensures Deduped(part[0].issues) <= WindowOf(part).issues
  {
    FirstIssuesLead(part);
    var (a, all) := (part[0].issues, IssuesIn(part));
    hide IssuesIn, Deduped;
    assert all == a + all[|a|..];
    DedupedPrefix(a, all[|a|..]);
  }

  /** The oldest group's newest row shows in the window's cursor. */
  lemma CursorAtLeastFirst(part: seq<Group>)
    requires part != [] && Settled(part[0])
    ensures CursorFor(WindowOf(part)).Some? && part[0].key <= CursorFor(WindowOf(part)).value
  {
    var first := part[0];
    PartHolds(part, 0);
    FirstRowsLead(part);
    RowsAreShown(first);
    hide IssuesIn, PullsIn, Deduped, Newest, NewestPull, Settled;
    if HasRow(Deduped(first.issues), first.key) {
      var k :| 0 <= k < |Deduped(first.issues)| && Deduped(first.issues)[k].updatedAt == first.key;
      CursorSeesIssue(WindowOf(part), k);
    } else {
      CursorSeesPull(WindowOf(part), first.pull.value);
    }
  }

  lemma CursorSeesIssue(w: Window, k: nat)
    requires k < |w.issues|
    ensures CursorFor(w).Some? && w.issues[k].updatedAt <= CursorFor(w).value
  {
  }

  lemma CursorSeesPull(w: Window, p: Pull)
    requires p in w.pulls
    ensures CursorFor(w).Some? && p.updatedAt <= CursorFor(w).value
  {
  }

  ghost predicate HasRow(rows: seq<Issue>, t: Stamp) {
    exists k :: 0 <= k < |rows| && rows[k].updatedAt == t
  }

  lemma RowsAreShown(g: Group)
    requires Settled(g)
    ensures (g.pull.Some? && g.pull.value.updatedAt == g.key)
      || HasRow(Deduped(g.issues), g.key)
  {
    var rows := Deduped(g.issues);
    if g.pull.None? {
      DedupedStep([], g.issues[0]);
      assert Deduped([]) == [] && [] + [g.issues[0]] == g.issues;
      assert rows[0].updatedAt == g.key;
    } else if g.pull.value.updatedAt != g.key {
      var k :| 0 <= k < |rows| && rows[k].updatedAt == g.key;
    }
  }

  /** A group of its own rows that shows the key it is placed by. */
  ghost predicate Settled(g: Group) { Whole(g) && ShownKey(g) == g.key }

  lemma NewestRow(g: Group) returns (k: nat)
    requires Whole(g) && (g.pull.Some? ==> g.key != g.pull.value.updatedAt)
    ensures k < |g.issues| && g.issues[k].updatedAt == g.key
  {
    k := 0;
    if g.pull.Some? {
      var refs := g.pull.value.closing;
      var i :| 0 <= i < |refs| && refs[i].updatedAt == g.key;
      SameMembers(g.issues, refs);
      assert refs[i] in g.issues;
      k :| 0 <= k < |g.issues| && g.issues[k] == refs[i];
    }
  }

  lemma KeptRow(s: seq<Issue>, k: nat) returns (j: nat)
    requires k < |s| && Coherent(s)
    ensures j < |Deduped(s)| && Deduped(s)[j].updatedAt == s[k].updatedAt
  {
    assert Idents(s)[k] in Idents(s);
    DedupedKeeps(s);
    j :| 0 <= j < |Deduped(s)| && Idents(Deduped(s))[j] == IdentOf(s[k]);
    assert Deduped(s)[j] in s;
    var i :| 0 <= i < |s| && s[i] == Deduped(s)[j];
  }

  /** No row of a window is newer than the newest group in it. */
  lemma CursorAtMostKeys(part: seq<Group>, top: Stamp)
    requires forall k :: 0 <= k < |part| ==> Whole(part[k]) && part[k].key <= top
    ensures CursorFor(WindowOf(part)).Some? ==> CursorFor(WindowOf(part)).value <= top
  {
    var w := WindowOf(part);
    DedupedKeeps(IssuesIn(part));
    hide IssuesIn, PullsIn, Deduped, Newest, NewestPull;
    forall i | 0 <= i < |w.issues| ensures w.issues[i].updatedAt <= top {
      assert w.issues[i] in w.issues;
      var k := IssueFrom(part, w.issues[i]);
      RowAtMostKey(part[k], w.issues[i]);
    }
    forall i | 0 <= i < |w.pulls| ensures w.pulls[i].updatedAt <= top {
      var k := PullFrom(part, w.pulls[i]);
    }
    hide Whole, WindowOf;
  }

  lemma RowAtMostKey(g: Group, x: Issue)
    requires Whole(g) && x in g.issues
    ensures x.updatedAt <= g.key
  {
    if g.pull.Some? { SameMembers(g.issues, g.pull.value.closing); }
  }

  /** Groups of an earlier part come before groups of a later one. */
  lemma {:induction false} PartsInOrder(parts: seq<seq<Group>>, i: nat, j: nat, a: nat, b: nat)
    requires Sorted(Flat(parts), KeyLe) && i < j < |parts| && a < |parts[i]| && b < |parts[j]|
    ensures parts[i][a].key <= parts[j][b].key
  {
    var (x, y) := (|Flat(parts[..i])| + a, |Flat(parts[..j])| + b);
    FlatAt(parts, i, a);
    FlatAt(parts, j, b);
    FlatPrefix(parts[..j], i + 1);
    assert parts[..j][..i + 1] == parts[..i + 1];
    hide Flat;
    assert x < y;
    assert KeyLe(Flat(parts)[x], Flat(parts)[y]);
  }

  lemma SortedStaysCoherent(a: seq<Issue>, b: seq<Issue>)
    requires Coherent(a) && multiset(a) == multiset(b)
    ensures Coherent(b)
  {
    SameMembers(a, b);
    forall i, j | 0 <= i < |b| && 0 <= j < |b| && IdentOf(b[i]) == IdentOf(b[j])
      ensures b[i].updatedAt == b[j].updatedAt
    {
      assert b[i] in a && b[j] in a;
    }
  }

  lemma PullGroupIsWhole(p: Pull)
    ensures Whole(PullGroup(p))
  {
  }

  /** Agreement is enough, and distinct references agree. */
  lemma CoherentIsShown(p: Pull)
    requires Coherent(p.closing)
    ensures Shown(p)
  {
    var g := PullGroup(p);
    PullGroupIsWhole(p);
    SortedStaysCoherent(p.closing, g.issues);
    DedupedKeeps(g.issues);
    hide PullGroup, Deduped, Coherent;
    if g.key != p.updatedAt {
      var k := NewestRow(g);
      var j := KeptRow(g.issues, k);
    }
    NewestOfFewer(Deduped(g.issues), g.issues, p.updatedAt);
    SameMembers(g.issues, p.closing);
    NewestOfFewer(g.issues, p.closing, p.updatedAt);
  }

  lemma {:induction false} NewestOfFewer(a: seq<Issue>, b: seq<Issue>, floor: Stamp)
    requires forall x :: x in a ==> x in b
    ensures Newest(a, floor) <= Newest(b, floor)
  {
    assert forall i :: 0 <= i < |a| ==> a[i] in a;
  }

  lemma GroupIsSettled(issues: seq<Issue>, pulls: seq<Pull>, g: Group)
    requires AllShown(pulls) && g in Ordered(issues, pulls)
    ensures Settled(g)
  {
    OrderedGroups(issues, pulls);
    hide Ordered, Shown;
    StandaloneMember(issues, Carried(pulls), g);
    if g in PullGroups(pulls) {
      var i :| 0 <= i < |pulls| && PullGroups(pulls)[i] == g;
      ShownIsSettled(pulls[i]);
    } else {
      LoneIsSettled(g);
    }
  }

  lemma ShownIsSettled(p: Pull)
    requires Shown(p)
    ensures Settled(PullGroup(p))
  {
    PullGroupIsWhole(p);
    hide PullGroup;
  }

  lemma LoneIsSettled(g: Group)
    requires Whole(g) && g.pull.None?
    ensures Settled(g)
  {
    DedupedStep([], g.issues[0]);
    assert Deduped([]) == [] && [] + [g.issues[0]] == g.issues;
    assert g.issues[..0] == [];
  }

  lemma {:induction false} PartCursorsInOrder(parts: seq<seq<Group>>, i: nat, j: nat)
    requires Sorted(Flat(parts), KeyLe) && i < j < |parts| && parts[i] != [] && parts[j] != []
    requires forall k :: 0 <= k < |parts[i]| ==> Settled(parts[i][k])
    requires forall k :: 0 <= k < |parts[j]| ==> Settled(parts[j][k])
    ensures var (a, b) := (CursorFor(WindowOf(parts[i])), CursorFor(WindowOf(parts[j])));
      a.Some? && b.Some? && a.value <= b.value
  {
    hide Settled, Whole, CursorFor, WindowOf, Sorted, KeyLe, Flat;
    forall k | 0 <= k < |parts[i]| ensures Whole(parts[i][k]) && parts[i][k].key <= parts[j][0].key {
      SettledIsWhole(parts[i][k]);
      PartsInOrder(parts, i, j, k, 0);
    }
    CursorAtLeastFirst(parts[i]);
    CursorAtLeastFirst(parts[j]);
    CursorAtMostKeys(parts[i], parts[j][0].key);
  }

  lemma SettledIsWhole(g: Group)
    requires Settled(g)
    ensures Whole(g)
  {
    hide ShownKey, Whole;
  }

  lemma {:induction false} PartIsSettled(issues: seq<Issue>, pulls: seq<Pull>, maxWindow: nat, i: nat)
    requires AllShown(pulls) && i < |Cut(Ordered(issues, pulls), maxWindow)|
    ensures var part := Cut(Ordered(issues, pulls), maxWindow)[i]; forall k :: 0 <= k < |part| ==> Settled(part[k])
  {
    PartFrom(Ordered(issues, pulls), maxWindow, i);
    hide Ordered, Cut, Settled, AllShown;
    var part := Cut(Ordered(issues, pulls), maxWindow)[i];
    forall k | 0 <= k < |part| ensures Settled(part[k]) {
      assert part[k] in part;
      GroupIsSettled(issues, pulls, part[k]);
    }
  }

  /** Saving the cursors of these windows in turn never moves back. */
  ghost predicate NeverRegresses(issues: seq<Issue>, pulls: seq<Pull>, maxWindow: nat) {
    var r := Windows(issues, pulls, maxWindow);
    r.Ok? ==> forall i, j :: 0 <= i < j < |r.value| ==> Follows(r.value[i], r.value[j])
  }

  ghost predicate Follows(a: Window, b: Window) {
    CursorFor(a).Some? && CursorFor(b).Some? && CursorFor(a).value <= CursorFor(b).value
  }

  /** Each window's cursor is at least every earlier window's, when every pull shows its newest row. */
  lemma CursorsNeverRegress(issues: seq<Issue>, pulls: seq<Pull>, maxWindow: nat)
    requires AllShown(pulls)
    ensures NeverRegresses(issues, pulls, maxWindow)
  {
    var r := Windows(issues, pulls, maxWindow);
    if r.Ok? {
      var parts := Cut(Ordered(issues, pulls), maxWindow);
      OrderedGroups(issues, pulls);
      hide Settled, Whole, CursorFor, WindowOf, AllShown, Sorted, Ordered, Cut;
      forall i, j | 0 <= i < j < |r.value| ensures Follows(r.value[i], r.value[j]) {
        PartIsSettled(issues, pulls, maxWindow, i);
        PartIsSettled(issues, pulls, maxWindow, j);
        PartCursorsInOrder(parts, i, j);
      }
    }
  }

  // ----- and showing it is needed

  lemma LoneWindow(g: Group)
    ensures WindowOf([g]) == Window(Deduped(g.issues), if g.pull.Some? then [g.pull.value] else [])
  {
    assert [g][..0] == [];
    assert IssuesIn([]) + g.issues == g.issues;
    assert PullsIn([]) == [];
  }

  lemma SortTwo(a: Group, b: Group)
    requires a.key <= b.key
    ensures StableSort([a] + [b], KeyLe) == [a, b]
  {
    assert StableSort([], KeyLe) == [];
    assert [b][1..] == [];
    assert StableSort([b], KeyLe) == [b];
    assert ([a] + [b])[1..] == [b];
  }

  lemma {:induction false} CutTwo(a: Group, b: Group, maxWindow: nat)
    requires a.Cost() + b.Cost() > maxWindow
    ensures Cut([a, b], maxWindow) == [[a], [b]]
  {
    assert Cut([], maxWindow) == [];
    hide Cut, Rows, Flat;
    assert [a][..0] == [] && [a, b][..1] == [a];
    CutStep([a], maxWindow);
    CutStep([a, b], maxWindow);
    LoneRows(a);
    assert [] + [[a]] == [[a]] && [[a]] + [[b]] == [[a], [b]];
  }

  lemma {:induction false} TwoInOrder(a: Group, b: Group, maxWindow: nat)
    requires a.key <= b.key && a.Cost() + b.Cost() > maxWindow
    ensures StableSort([a] + [b], KeyLe) == [a, b] && Cut([a, b], maxWindow) == [[a], [b]]
  {
    hide StableSort, Cut;
    SortTwo(a, b);
    CutTwo(a, b, maxWindow);
  }

  lemma {:induction false} LoneStandalone(issue: Issue, carried: set<Ident>)
    requires IdentOf(issue) !in carried
    ensures StandaloneGroups([issue], carried) == [StandaloneGroup(issue)]
    ensures WindowOf([StandaloneGroup(issue)]) == Window([issue], []) && Newest([issue], 0) == issue.updatedAt
  {
    assert [issue][..0] == [];
    LoneWindow(StandaloneGroup(issue));
    assert Deduped([]) == [];
  }

  lemma LonePullWindow(p: Pull)
    ensures WindowOf([PullGroup(p)]) == Window(Deduped(PullGroup(p).issues), [p])
    ensures CursorFor(WindowOf([PullGroup(p)])) == Some(ShownKey(PullGroup(p)))
  {
    LoneWindow(PullGroup(p));
    var g := PullGroup(p);
    assert g.pull == Some(p);
    hide PullGroup, Deduped, WindowOf;
    assert [p][..0] == [];
    FloorCommutes(Deduped(g.issues), p.updatedAt);
  }

  lemma {:induction false} FloorCommutes(rows: seq<Issue>, floor: Stamp)
    ensures Newest(rows, floor) == Max(Newest(rows, 0), floor)
  {
    if rows != [] { FloorCommutes(rows[..|rows| - 1], floor); }
  }

  lemma BesideCarried(p: Pull, x: Ident)
    requires x !in Idents(p.closing)
    ensures x !in Carried([p])
  {
    CarriedMember([p], x);
  }

  lemma BesideOrdered(issue: Issue, p: Pull)
    requires IdentOf(issue) !in Idents(p.closing)
    ensures Ordered([issue], [p]) == StableSort([StandaloneGroup(issue)] + [PullGroup(p)], KeyLe)
  {
    BesideCarried(p, IdentOf(issue));
    hide Carried, PullGroup, StableSort, StandaloneGroups, StandaloneGroup, WindowOf, Newest;
    LoneStandalone(issue, Carried([p]));
    assert PullGroups([p]) == [PullGroup(p)];
  }

  lemma GroupCost(p: Pull)
    ensures PullGroup(p).Cost() == 1 + |p.closing|
  {
  }

  /** A pull that does not show the row it is placed by, next to an issue as new as that row, in windows
      just wide enough for it: the pull's window comes second and its cursor falls behind. */
  lemma HiddenRowRegresses(issue: Issue, p: Pull)
    requires !Shown(p) && IdentOf(issue) !in Idents(p.closing) && issue.updatedAt == PullGroup(p).key
    ensures !NeverRegresses([issue], [p], 1 + |p.closing|)
  {
    var (a, b, n) := (StandaloneGroup(issue), PullGroup(p), 1 + |p.closing|);
    ShownAtMostKey(p);
    GroupCost(p);
    LoneStandalone(issue, {});
    LonePullWindow(p);
    hide Ordered, PullGroup, Cut, WindowOf, StandaloneGroups, Flat, ShownKey, StableSort;
    BesideOrdered(issue, p);
    TwoInOrder(a, b, n);
    FittingPull([issue], p, n, [a], [b]);
    var ws := Windows([issue], [p], n).value;
    hide Windows;
    assert !Follows(ws[0], ws[1]);
  }

  lemma ShownAtMostKey(p: Pull)
    ensures ShownKey(PullGroup(p)) <= PullGroup(p).key
  {
    var g := PullGroup(p);
    DedupedKeeps(g.issues);
    SameMembers(g.issues, p.closing);
    NewestOfFewer(Deduped(g.issues), p.closing, p.updatedAt);
    hide Deduped, StableSort;
  }

  /** One issue listed twice in a pull, at two times: only the older row is kept, and the key was the newer. */
  lemma RepeatedReferenceHidesRow(older: Issue, newer: Issue, p: Pull)
    requires p.closing == [older, newer] && IdentOf(older) == IdentOf(newer)
    requires older.updatedAt < newer.updatedAt && p.updatedAt < newer.updatedAt
    ensures !Shown(p)
  {
    assert [older, newer][1..] == [newer] && [newer][1..] == [] && [older, newer][..1] == [older] && [older][..0] == [];
    assert StableSort([newer], OlderFirst) == [newer];
    assert StableSort([older, newer], OlderFirst) == [older, newer];
    assert Deduped([]) == [] && Deduped([older]) == [older];
    assert PullGroup(p).issues == [older, newer] && Deduped([older, newer]) == [older];
  }

  lemma {:induction false} FreshNumber(s: seq<Issue>) returns (n: nat)
    ensures forall i :: 0 <= i < |s| ==> s[i].number < n
  {
    n := 0;
    if s != [] {
      n := FreshNumber(s[..|s| - 1]);
      n := Max(n, s[|s| - 1].number + 1);
    }
  }

  /** Exactly which pulls keep cursors from moving back, whatever else is fetched with them and however wide
      windows are: those that show the newest row they are placed by. */
  lemma CursorsNeverRegressIff(pool: seq<Pull>)
    ensures AllShown(pool) <==>
      forall issues, pulls, maxWindow: nat ::
        (forall i :: 0 <= i < |pulls| ==> pulls[i] in pool) ==> NeverRegresses(issues, pulls, maxWindow)
  {
    hide NeverRegresses, Shown;
    if AllShown(pool) {
      forall issues, pulls: seq<Pull>, maxWindow: nat | forall i :: 0 <= i < |pulls| ==> pulls[i] in pool
        ensures NeverRegresses(issues, pulls, maxWindow)
      {
        CursorsNeverRegress(issues, pulls, maxWindow);
      }
    } else {
      var i :| 0 <= i < |pool| && !Shown(pool[i]);
      var p := pool[i];
      var n := FreshNumber(p.closing);
      var issue := Issue(n, None, PullGroup(p).key, "", "");
      HiddenRowRegresses(issue, p);
      assert [p][0] in pool;
      assert !NeverRegresses([issue], [p], 1 + |p.closing|);
    }
  }

  /** Pulls whose references are distinct never make a cursor move back. */
  lemma DistinctReferencesNeverRegress(issues: seq<Issue>, pulls: seq<Pull>, maxWindow: nat)
    requires forall i :: 0 <= i < |pulls| ==> Distinct(Idents(pulls[i].closing))
    ensures NeverRegresses(issues, pulls, maxWindow)
  {
    forall i | 0 <= i < |pulls| ensures Shown(pulls[i]) {
      DistinctIsCoherent(pulls[i].closing);
      CoherentIsShown(pulls[i]);
    }
    CursorsNeverRegress(issues, pulls, maxWindow);
  }

  lemma {:induction false} FittingWindows(issues: seq<Issue>, pulls: seq<Pull>, maxWindow: nat, a: seq<Group>,
      b: seq<Group>)
    requires Cut(Ordered(issues, pulls), maxWindow) == [a, b] && forall i :: 0 <= i < |pulls| ==>
      !TooWide(pulls[i], maxWindow)
    ensures Windows(issues, pulls, maxWindow) == Ok([WindowOf(a), WindowOf(b)])
  {
    hide Ordered, Cut, WindowOf, Flat, TooWide;
    assert WindowsOf([a, b]) == [WindowOf(a), WindowOf(b)];
  }

  lemma {:induction false} FittingPull(issues: seq<Issue>, pull: Pull, maxWindow: nat, a: seq<Group>, b: seq<Group>)
    requires !TooWide(pull, maxWindow) && Cut(Ordered(issues, [pull]), maxWindow) == [a, b]
    ensures Windows(issues, [pull], maxWindow) == Ok([WindowOf(a), WindowOf(b)])
  {
    hide Ordered, Cut, WindowOf, Flat, TooWide, Windows;
    FittingWindows(issues, [pull], maxWindow, a, b);
  }

  // ----- how far a settled window reaches

  /** No later group is older than an earlier window's cursor. */
  lemma {:induction false} LaterGroupsAreNewer(parts: seq<seq<Group>>, i: nat, j: nat, g: Group)
    requires Sorted(Flat(parts), KeyLe) && i < j < |parts| && g in parts[j]
    requires forall h :: h in parts[i] ==> Whole(h)
    ensures CursorFor(WindowOf(parts[i])).Some? ==> CursorFor(WindowOf(parts[i])).value <= g.key
  {
    var b :| 0 <= b < |parts[j]| && parts[j][b] == g;
    forall k | 0 <= k < |parts[i]| ensures Whole(parts[i][k]) && parts[i][k].key <= g.key {
      PartsInOrder(parts, i, j, k, b);
      assert parts[i][k] in parts[i];
    }
    hide Flat, Whole, WindowOf, CursorFor, Sorted, KeyLe;
    CursorAtMostKeys(parts[i], g.key);
  }

  lemma {:induction false} OrderedPart(issues: seq<Issue>, pulls: seq<Pull>, maxWindow: nat, i: nat)
    requires i < |Cut(Ordered(issues, pulls), maxWindow)|
    ensures forall h :: h in Cut(Ordered(issues, pulls), maxWindow)[i] ==> Whole(h)
  {
    OrderedGroups(issues, pulls);
    PartFrom(Ordered(issues, pulls), maxWindow, i);
    hide Ordered, Cut, Whole;
  }

  /** A group older than a window's cursor is in that window or an earlier one. */
  lemma OlderGroupsCameBefore(issues: seq<Issue>, pulls: seq<Pull>, maxWindow: nat, i: nat, g: Group) returns (j: nat)
    requires i < |Cut(Ordered(issues, pulls), maxWindow)| && g in Ordered(issues, pulls)
    requires var c := CursorFor(WindowOf(Cut(Ordered(issues, pulls), maxWindow)[i])); c.Some? && g.key < c.value
    ensures j <= i && g in Cut(Ordered(issues, pulls), maxWindow)[j]
  {
    j := PartOf(Ordered(issues, pulls), maxWindow, g);
    OrderedGroups(issues, pulls);
    OrderedPart(issues, pulls, maxWindow, i);
    hide Ordered, Cut, Whole, WindowOf, CursorFor, Sorted, KeyLe;
    if j > i {
      LaterGroupsAreNewer(Cut(Ordered(issues, pulls), maxWindow), i, j, g);
    }
  }
}
