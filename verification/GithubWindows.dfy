/** One GitHub fetch becomes windows: a pull travels with every issue it closes, windows stay within
    the row bound, and their cursors never move back. */
module GithubWindows {
  import opened Common
  import opened Sorting
  import opened Grouping

  /** Timestamps are ordered; 0 stands for the empty string, which sorts before every timestamp. */
  type Stamp = nat

  /** An issue row: `repo` names another repository's issue, None is this repository's. */
  datatype Issue = Issue(number: nat, repo: Option<string>, updatedAt: Stamp, memoryType: string, text: string)

  datatype Pull = Pull(number: nat, updatedAt: Stamp, closing: seq<Issue>, memoryType: string, text: string)

  datatype Ident = Ident(repo: Option<string>, number: nat)

  datatype Window = Window(issues: seq<Issue>, pulls: seq<Pull>)

  /** Rows that must share a window. */
  datatype Group = Group(key: Stamp, issues: seq<Issue>, pull: Option<Pull>) {
    function Cost(): nat { |issues| + if pull.Some? then 1 else 0 }
  }

  function IdentOf(i: Issue): Ident { Ident(i.repo, i.number) }

  function Idents(s: seq<Issue>): (r: seq<Ident>)
    ensures |r| == |s| && forall i :: 0 <= i < |s| ==> r[i] == IdentOf(s[i])
  {
    seq(|s|, i requires 0 <= i < |s| => IdentOf(s[i]))
  }

  // ----- newest rows

  function Newest(issues: seq<Issue>, floor: Stamp): (r: Stamp)
    ensures floor <= r && (forall i :: 0 <= i < |issues| ==> issues[i].updatedAt <= r)
    ensures r == floor || exists i :: 0 <= i < |issues| && issues[i].updatedAt == r
  {
    if issues == [] then floor
    else
      var n := |issues| - 1;
      Max(Newest(issues[..n], floor), issues[n].updatedAt)
  }

  function NewestPull(pulls: seq<Pull>, floor: Stamp): (r: Stamp)
    ensures floor <= r && (forall i :: 0 <= i < |pulls| ==> pulls[i].updatedAt <= r)
    ensures r == floor || exists i :: 0 <= i < |pulls| && pulls[i].updatedAt == r
  {
    if pulls == [] then floor
    else
      var n := |pulls| - 1;
      Max(NewestPull(pulls[..n], floor), pulls[n].updatedAt)
  }

  /** The window cursor: its newest row, absent for an empty window. */
  function CursorFor(w: Window): Option<Stamp> {
    if w == Window([], []) then None else Some(NewestPull(w.pulls, Newest(w.issues, 0)))
  }

  // ----- groups

  predicate OlderFirst(a: Issue, b: Issue) { a.updatedAt <= b.updatedAt }

  predicate KeyLe(a: Group, b: Group) { a.key <= b.key }

  function Carried(pulls: seq<Pull>): set<Ident> {
    if pulls == [] then {}
    else
      var refs := Idents(pulls[|pulls| - 1].closing);
      Carried(pulls[..|pulls| - 1]) + set x | x in refs
  }

  lemma {:induction false} CarriedMember(pulls: seq<Pull>, x: Ident)
    ensures x in Carried(pulls) <==> exists i :: 0 <= i < |pulls| && x in Idents(pulls[i].closing)
  {
    if pulls != [] {
      var n := |pulls| - 1;
      CarriedMember(pulls[..n], x);
      assert pulls == pulls[..n] + [pulls[n]];
    }
  }

  function StandaloneGroup(i: Issue): Group { Group(i.updatedAt, [i], None) }

  function PullGroup(p: Pull): Group {
    Group(Newest(p.closing, p.updatedAt), StableSort(p.closing, OlderFirst), Some(p))
  }

  function StandaloneGroups(issues: seq<Issue>, carried: set<Ident>): seq<Group> {
    if issues == [] then []
    else
      var n := |issues| - 1;
      var before := StandaloneGroups(issues[..n], carried);
      if IdentOf(issues[n]) in carried then before else before + [StandaloneGroup(issues[n])]
  }

  lemma {:induction false} StandaloneMember(issues: seq<Issue>, carried: set<Ident>, g: Group)
    ensures g in StandaloneGroups(issues, carried) <==>
      exists i :: 0 <= i < |issues| && IdentOf(issues[i]) !in carried && g == StandaloneGroup(issues[i])
  {
    if issues != [] {
      var n := |issues| - 1;
      StandaloneMember(issues[..n], carried, g);
      assert issues == issues[..n] + [issues[n]];
    }
  }

  function PullGroups(pulls: seq<Pull>): (r: seq<Group>)
    ensures |r| == |pulls| && forall i :: 0 <= i < |pulls| ==> r[i] == PullGroup(pulls[i])
  {
    seq(|pulls|, i requires 0 <= i < |pulls| => PullGroup(pulls[i]))
  }

  /** Groups in the order windows take them: oldest first by newest row. */
  function Ordered(issues: seq<Issue>, pulls: seq<Pull>): seq<Group> {
    StableSort(StandaloneGroups(issues, Carried(pulls)) + PullGroups(pulls), KeyLe)
  }

  // ----- windows

  function Rows(gs: seq<Group>): nat {
    if gs == [] then 0 else Rows(gs[..|gs| - 1]) + gs[|gs| - 1].Cost()
  }

  /** The greedy cut: a group joins the open part if it fits, and opens a new one otherwise. */
  function Cut(gs: seq<Group>, maxWindow: nat): (r: seq<seq<Group>>)
    ensures forall i :: 0 <= i < |r| ==> r[i] != []
    ensures Flat(r) == gs
  {
    if gs == [] then []
    else
      var n := |gs| - 1;
      var parts := Cut(gs[..n], maxWindow);
      assert gs == gs[..n] + [gs[n]];
      if parts != [] && Rows(parts[|parts| - 1]) + gs[n].Cost() <= maxWindow
      then
        assert (parts[..|parts| - 1] + [parts[|parts| - 1] + [gs[n]]])[..|parts| - 1] == parts[..|parts| - 1];
        parts[..|parts| - 1] + [parts[|parts| - 1] + [gs[n]]]
      else
        assert (parts + [[gs[n]]])[..|parts|] == parts;
        parts + [[gs[n]]]
  }

  /** First row of each identity, in order. */
  function Deduped(s: seq<Issue>): seq<Issue> {
    if s == [] then []
    else
      var before := Deduped(s[..|s| - 1]);
      if IdentOf(s[|s| - 1]) in Idents(before) then before else before + [s[|s| - 1]]
  }

  lemma {:induction false} DedupedStep(s: seq<Issue>, x: Issue)
    ensures Deduped(s + [x]) == if IdentOf(x) in Idents(Deduped(s)) then Deduped(s) else Deduped(s) + [x]
    ensures Idents(Deduped(s) + [x]) == Idents(Deduped(s)) + [IdentOf(x)]
    ensures Idents(s + [x]) == Idents(s) + [IdentOf(x)]
  {
    assert (s + [x])[..|s|] == s;
  }

  /** Deduplication keeps one row of every identity, and only rows it was given. */
  lemma {:induction false} DedupedKeeps(s: seq<Issue>)
    ensures Distinct(Idents(Deduped(s))) && |Deduped(s)| <= |s|
    ensures forall x :: x in Idents(Deduped(s)) <==> x in Idents(s)
    ensures forall x :: x in Deduped(s) ==> x in s
  {
    if s != [] {
      var n := |s| - 1;
      DedupedKeeps(s[..n]);
      assert s == s[..n] + [s[n]];
      DedupedStep(s[..n], s[n]);
    }
  }

  function IssuesIn(part: seq<Group>): seq<Issue> {
    if part == [] then [] else IssuesIn(part[..|part| - 1]) + part[|part| - 1].issues
  }

  function PullsIn(part: seq<Group>): seq<Pull> {
    if part == [] then []
    else
      var g := part[|part| - 1];
      PullsIn(part[..|part| - 1]) + if g.pull.Some? then [g.pull.value] else []
  }

  function WindowOf(part: seq<Group>): Window { Window(Deduped(IssuesIn(part)), PullsIn(part)) }

  function WindowsOf(parts: seq<seq<Group>>): (r: seq<Window>)
    ensures |r| == |parts| && forall i :: 0 <= i < |parts| ==> r[i] == WindowOf(parts[i])
  {
    seq(|parts|, i requires 0 <= i < |parts| => WindowOf(parts[i]))
  }

  predicate TooWide(p: Pull, maxWindow: nat) { 1 + |p.closing| > maxWindow }

  /** The reference: refuse a pull that cannot fit, otherwise cut the ordered groups. */
  function Windows(issues: seq<Issue>, pulls: seq<Pull>, maxWindow: nat): Result<seq<Window>, nat> {
    if exists i :: 0 <= i < |pulls| && TooWide(pulls[i], maxWindow)
    then Err(FirstTooWide(pulls, maxWindow))
    else Ok(WindowsOf(Cut(Ordered(issues, pulls), maxWindow)))
  }

  /** How many references the first refused pull carries. */
  function FirstTooWide(pulls: seq<Pull>, maxWindow: nat): nat
    requires exists i :: 0 <= i < |pulls| && TooWide(pulls[i], maxWindow)
  {
    if TooWide(pulls[0], maxWindow) then |pulls[0].closing|
    else
      var i :| 0 <= i < |pulls| && TooWide(pulls[i], maxWindow);
      assert pulls[1..][i - 1] == pulls[i];
      FirstTooWide(pulls[1..], maxWindow)
  }

  // ----- what a part holds

  lemma {:induction false} PartSize(part: seq<Group>)
    ensures |IssuesIn(part)| + |PullsIn(part)| == Rows(part)
  {
    if part != [] { PartSize(part[..|part| - 1]); }
  }

  lemma {:induction false} PartHolds(part: seq<Group>, k: nat)
    requires k < |part|
    ensures forall x :: x in part[k].issues ==> x in IssuesIn(part)
    ensures part[k].pull.Some? ==> part[k].pull.value in PullsIn(part)
  {
    if k < |part| - 1 { PartHolds(part[..|part| - 1], k); }
  }

  lemma {:induction false} IssueFrom(part: seq<Group>, x: Issue) returns (k: nat)
    requires x in IssuesIn(part)
    ensures k < |part| && x in part[k].issues
  {
    var n := |part| - 1;
    if x in part[n].issues { k := n; } else { k := IssueFrom(part[..n], x); }
  }

  lemma {:induction false} PullFrom(part: seq<Group>, p: Pull) returns (k: nat)
    requires p in PullsIn(part)
    ensures k < |part| && part[k].pull == Some(p)
  {
    var n := |part| - 1;
    if part[n].pull == Some(p) { k := n; } else { k := PullFrom(part[..n], p); }
  }

  /** A row's identity survives the window's deduplication. */
  lemma RowIsListed(part: seq<Group>, k: nat, x: Issue)
    requires k < |part| && x in part[k].issues
    ensures IdentOf(x) in Idents(WindowOf(part).issues)
  {
    PartHolds(part, k);
    IdentMember(IssuesIn(part), x);
    DedupedKeeps(IssuesIn(part));
  }

  lemma IdentMember(s: seq<Issue>, x: Issue)
    requires x in s
    ensures IdentOf(x) in Idents(s)
  {
    var i :| 0 <= i < |s| && s[i] == x;
    assert Idents(s)[i] == IdentOf(x);
  }

  /** A group carries rows of its own: a standalone issue, or a pull with exactly its references. */
  ghost predicate Whole(g: Group) {
    if g.pull.Some? then multiset(g.issues) == multiset(g.pull.value.closing)
      && g.key == Newest(g.pull.value.closing, g.pull.value.updatedAt)
    else |g.issues| == 1 && g.key == g.issues[0].updatedAt
  }

  lemma SameMembers<T>(a: seq<T>, b: seq<T>)
    requires multiset(a) == multiset(b)
    ensures forall x :: x in a <==> x in b
  {
    forall x ensures x in a <==> x in b {
      assert x in a <==> x in multiset(a);
      assert x in b <==> x in multiset(b);
    }
  }

  lemma {:induction false} GroupIsWhole(issues: seq<Issue>, pulls: seq<Pull>, carried: set<Ident>, g: Group)
    requires g in StandaloneGroups(issues, carried) || g in PullGroups(pulls)
    ensures Whole(g)
  {
    StandaloneMember(issues, carried, g);
    hide StandaloneGroups;
    if g in PullGroups(pulls) {
      var i :| 0 <= i < |pulls| && PullGroups(pulls)[i] == g;
    }
  }

  lemma {:induction false} OrderedGroups(issues: seq<Issue>, pulls: seq<Pull>)
    ensures Sorted(Ordered(issues, pulls), KeyLe)
    ensures forall g :: g in Ordered(issues, pulls) <==>
      g in StandaloneGroups(issues, Carried(pulls)) || g in PullGroups(pulls)
    ensures forall g :: g in Ordered(issues, pulls) ==> Whole(g)
  {
    var gs := StandaloneGroups(issues, Carried(pulls)) + PullGroups(pulls);
    hide StableSort, Carried, StandaloneGroups, Whole, PullGroups, Sorted;
    StableSortSorts(gs, KeyLe);
    SameMembers(gs, Ordered(issues, pulls));
    forall g | g in gs ensures Whole(g) { GroupIsWhole(issues, pulls, Carried(pulls), g); }
  }

  lemma {:induction false} RowsAppend(part: seq<Group>, g: Group)
    ensures Rows(part + [g]) == Rows(part) + g.Cost()
  {
    assert (part + [g])[..|part|] == part;
  }

  lemma {:induction false} CutStep(gs: seq<Group>, maxWindow: nat)
    requires gs != []
    ensures var (parts, g) := (Cut(gs[..|gs| - 1], maxWindow), gs[|gs| - 1]);
      Cut(gs, maxWindow) ==
        if parts != [] && Rows(parts[|parts| - 1]) + g.Cost() <= maxWindow
        then parts[..|parts| - 1] + [parts[|parts| - 1] + [g]]
        else parts + [[g]]
  {
    hide Rows, Flat;
  }

  /** Cutting keeps each part within the bound, or leaves it a lone group. */
  lemma {:induction false} PartsFit(gs: seq<Group>, maxWindow: nat)
    requires forall i :: 0 <= i < |gs| ==> gs[i].Cost() <= Max(1, maxWindow)
    ensures forall i :: 0 <= i < |Cut(gs, maxWindow)| ==> Rows(Cut(gs, maxWindow)[i]) <= Max(1, maxWindow)
  {
    if gs != [] {
      CutStep(gs, maxWindow);
      LoneRows(gs[|gs| - 1]);
      hide Rows, Flat, Cut;
      var g := gs[|gs| - 1];
      PartsFit(gs[..|gs| - 1], maxWindow);
      var parts := Cut(gs[..|gs| - 1], maxWindow);
      if parts != [] { RowsAppend(parts[|parts| - 1], g); }
    }
  }

  /** A part is closed only when the group behind it does not fit. */
  lemma {:induction false} PartsAreFull(gs: seq<Group>, maxWindow: nat, i: nat)
    requires i + 1 < |Cut(gs, maxWindow)|
    ensures Rows(Cut(gs, maxWindow)[i]) + Cut(gs, maxWindow)[i + 1][0].Cost() > maxWindow
  {
    CutStep(gs, maxWindow);
    var (parts, n) := (Cut(gs[..|gs| - 1], maxWindow), |Cut(gs[..|gs| - 1], maxWindow)|);
    hide Rows, Flat, Cut;
    if i + 1 < n { PartsAreFull(gs[..|gs| - 1], maxWindow, i); }
  }

  /** The rows of these parts, with no row left out for being a copy, are what the windows were cut from: whole groups,
      oldest first, and none of a part's groups but the first would have fitted the part before. */
  ghost predicate Greedy(issues: seq<Issue>, pulls: seq<Pull>, parts: seq<seq<Group>>, maxWindow: nat) {
    && Sorted(Flat(parts), KeyLe)
    && multiset(Flat(parts)) == multiset(StandaloneGroups(issues, Carried(pulls)) + PullGroups(pulls))
    && (forall i :: 0 <= i < |parts| ==> parts[i] != [])
    && forall i :: 0 <= i < |parts| - 1 ==>
         |IssuesIn(parts[i])| + |PullsIn(parts[i])| + parts[i + 1][0].Cost() > maxWindow
  }

  /** No more windows than the order of the groups makes necessary. */
  lemma WindowsAreGreedy(issues: seq<Issue>, pulls: seq<Pull>, maxWindow: nat) returns (parts: seq<seq<Group>>)
    requires Windows(issues, pulls, maxWindow).Ok?
    ensures Windows(issues, pulls, maxWindow).value == WindowsOf(parts) && Greedy(issues, pulls, parts, maxWindow)
  {
    parts := Cut(Ordered(issues, pulls), maxWindow);
    OrderedGroups(issues, pulls);
    assert Flat(parts) == Ordered(issues, pulls);
    forall i | 0 <= i < |parts| - 1
      ensures |IssuesIn(parts[i])| + |PullsIn(parts[i])| + parts[i + 1][0].Cost() > maxWindow
    {
      hide IssuesIn, PullsIn, Rows, Cut, Ordered, Windows;
      PartSize(parts[i]);
      PartsAreFull(Ordered(issues, pulls), maxWindow, i);
    }
  }

  lemma LoneRows(g: Group)
    ensures Rows([g]) == g.Cost()
  {
    assert [g][..0] == [];
  }

  lemma PartOf(gs: seq<Group>, maxWindow: nat, g: Group) returns (i: nat)
    requires g in gs
    ensures i < |Cut(gs, maxWindow)| && g in Cut(gs, maxWindow)[i]
  {
    FlatMember(Cut(gs, maxWindow), g);
    i :| 0 <= i < |Cut(gs, maxWindow)| && g in Cut(gs, maxWindow)[i];
  }

  lemma {:induction false} PartFrom(gs: seq<Group>, maxWindow: nat, i: nat)
    requires i < |Cut(gs, maxWindow)|
    ensures forall g :: g in Cut(gs, maxWindow)[i] ==> g in gs
  {
    var parts := Cut(gs, maxWindow);
    forall g | g in parts[i] ensures g in gs { FlatMember(parts, g); }
  }

  // ----- pulls are conserved

  lemma {:induction false} PullsConcat(a: seq<Group>, b: seq<Group>)
    ensures PullsIn(a + b) == PullsIn(a) + PullsIn(b)
  {
    if b == [] {
      assert a + b == a;
    } else {
      assert (a + b)[..|a| + |b| - 1] == a + b[..|b| - 1];
      PullsConcat(a, b[..|b| - 1]);
    }
  }

  lemma {:induction false} InsertKeepsPulls(g: Group, s: seq<Group>)
    ensures multiset(PullsIn(Insert(g, s, KeyLe))) == multiset(PullsIn([g])) + multiset(PullsIn(s))
  {
    hide PullsIn, Insert, KeyLe;
    InsertUnfolds(g, s);
    if s == [] || KeyLe(g, s[0]) {
      PullsConcat([g], s);
    } else {
      InsertKeepsPulls(g, s[1..]);
      SamePullsBehind(s[0], Insert(g, s[1..], KeyLe), g, s[1..]);
      assert s == [s[0]] + s[1..];
    }
  }

  lemma {:induction false} InsertUnfolds(g: Group, s: seq<Group>)
    ensures Insert(g, s, KeyLe) == if s == [] || KeyLe(g, s[0]) then [g] + s else [s[0]] + Insert(g, s[1..], KeyLe)
  {
  }

  lemma {:induction false} SamePullsBehind(first: Group, a: seq<Group>, g: Group, b: seq<Group>)
    requires multiset(PullsIn(a)) == multiset(PullsIn([g])) + multiset(PullsIn(b))
    ensures multiset(PullsIn([first] + a)) == multiset(PullsIn([g])) + multiset(PullsIn([first] + b))
  {
    PullsConcat([first], a);
    PullsConcat([first], b);
    hide PullsIn;
  }

  lemma {:induction false} SortKeepsPulls(s: seq<Group>)
    ensures multiset(PullsIn(StableSort(s, KeyLe))) == multiset(PullsIn(s))
  {
    if s != [] {
      SortKeepsPulls(s[1..]);
      InsertKeepsPulls(s[0], StableSort(s[1..], KeyLe));
      PullsConcat([s[0]], s[1..]);
      assert s == [s[0]] + s[1..];
      hide PullsIn, Insert;
    }
  }

  lemma PullOfGroup(p: Pull)
    ensures PullsIn([PullGroup(p)]) == [p]
  {
    assert [PullGroup(p)][..0] == [];
  }

  lemma PullGroupsAppend(pulls: seq<Pull>, p: Pull)
    ensures PullGroups(pulls + [p]) == PullGroups(pulls) + [PullGroup(p)]
  {
    hide PullGroup;
  }

  lemma {:induction false} PullsOfPullGroups(pulls: seq<Pull>)
    ensures PullsIn(PullGroups(pulls)) == pulls
  {
    if pulls != [] {
      var (front, p) := (pulls[..|pulls| - 1], pulls[|pulls| - 1]);
      hide PullGroup, PullGroups, PullsIn;
      assert pulls == front + [p];
      PullsOfPullGroups(front);
      PullGroupsAppend(front, p);
      PullsConcat(PullGroups(front), [PullGroup(p)]);
      PullOfGroup(p);
    }
  }

  lemma {:induction false} StandaloneHasNoPulls(issues: seq<Issue>, carried: set<Ident>)
    ensures PullsIn(StandaloneGroups(issues, carried)) == []
  {
    if issues != [] {
      var n := |issues| - 1;
      StandaloneHasNoPulls(issues[..n], carried);
      PullsConcat(StandaloneGroups(issues[..n], carried), [StandaloneGroup(issues[n])]);
      assert PullsIn([StandaloneGroup(issues[n])]) == [];
    }
  }

  function WindowPulls(ws: seq<Window>): (r: seq<seq<Pull>>)
    ensures |r| == |ws| && forall i :: 0 <= i < |ws| ==> r[i] == ws[i].pulls
  {
    seq(|ws|, i requires 0 <= i < |ws| => ws[i].pulls)
  }

  lemma {:induction false} FlatPulls(parts: seq<seq<Group>>)
    ensures Flat(WindowPulls(WindowsOf(parts))) == PullsIn(Flat(parts))
  {
    if parts != [] {
      var n := |parts| - 1;
      FlatPulls(parts[..n]);
      assert WindowPulls(WindowsOf(parts))[..n] == WindowPulls(WindowsOf(parts[..n]));
      PullsConcat(Flat(parts[..n]), parts[n]);
    }
  }

  /** Every pull is in exactly one window, once for each time it was fetched. */
  lemma PullsConserved(issues: seq<Issue>, pulls: seq<Pull>, maxWindow: nat)
    requires Windows(issues, pulls, maxWindow).Ok?
    ensures multiset(Flat(WindowPulls(Windows(issues, pulls, maxWindow).value))) == multiset(pulls)
  {
    var standalone := StandaloneGroups(issues, Carried(pulls));
    FlatPulls(Cut(Ordered(issues, pulls), maxWindow));
    SortKeepsPulls(standalone + PullGroups(pulls));
    PullsConcat(standalone, PullGroups(pulls));
    StandaloneHasNoPulls(issues, Carried(pulls));
    PullsOfPullGroups(pulls);
  }

  // ----- bounds, affinity, coverage

  /** One window: within the bound, no identity twice, and every pull with all of its references. */
  ghost predicate Sound(w: Window, maxWindow: nat) {
    && 1 <= |w.issues| + |w.pulls| <= Max(1, maxWindow)
    && Distinct(Idents(w.issues))
    && forall p :: p in w.pulls ==> forall x :: x in Idents(p.closing) ==> x in Idents(w.issues)
  }

  lemma GroupsFit(issues: seq<Issue>, pulls: seq<Pull>, maxWindow: nat)
    requires Windows(issues, pulls, maxWindow).Ok?
    ensures forall g :: g in Ordered(issues, pulls) ==> g.Cost() <= Max(1, maxWindow)
  {
    OrderedGroups(issues, pulls);
    hide Ordered, Cut, Carried;
    forall g | g in Ordered(issues, pulls) ensures g.Cost() <= Max(1, maxWindow) {
      StandaloneMember(issues, Carried(pulls), g);
      if g in PullGroups(pulls) {
        var i :| 0 <= i < |pulls| && PullGroups(pulls)[i] == g;
        assert !TooWide(pulls[i], maxWindow);
      }
    }
  }

  lemma {:induction false} PartKeepsReferences(part: seq<Group>, p: Pull, x: Ident)
    requires p in PullsIn(part) && x in Idents(p.closing) && forall g :: g in part ==> Whole(g)
    ensures x in Idents(WindowOf(part).issues)
  {
    var k := PullFrom(part, p);
    assert part[k] in part;
    SameMembers(part[k].issues, p.closing);
    var i :| 0 <= i < |p.closing| && Idents(p.closing)[i] == x;
    assert p.closing[i] in part[k].issues;
    RowIsListed(part, k, p.closing[i]);
  }

  lemma PartIsNotEmpty(part: seq<Group>)
    requires part != [] && forall g :: g in part ==> Whole(g)
    ensures |WindowOf(part).issues| + |WindowOf(part).pulls| >= 1
  {
    var first := part[0];
    assert first in part;
    PartHolds(part, 0);
    if first.pull.None? {
      assert first.issues[0] in first.issues;
      RowIsListed(part, 0, first.issues[0]);
    }
  }

  lemma {:induction false} PartIsSound(part: seq<Group>, maxWindow: nat)
    requires part != [] && Rows(part) <= Max(1, maxWindow) && forall g :: g in part ==> Whole(g)
    ensures Sound(WindowOf(part), maxWindow)
  {
    PartSize(part);
    PartIsNotEmpty(part);
    DedupedKeeps(IssuesIn(part));
    forall p, x | p in PullsIn(part) && x in Idents(p.closing)
      ensures x in Idents(WindowOf(part).issues)
    {
      PartKeepsReferences(part, p, x);
    }
    hide Whole, IssuesIn, PullsIn, Rows;
  }

  lemma WindowsAreSound(issues: seq<Issue>, pulls: seq<Pull>, maxWindow: nat, i: nat)
    requires Windows(issues, pulls, maxWindow).Ok? && i < |Windows(issues, pulls, maxWindow).value|
    ensures Sound(Windows(issues, pulls, maxWindow).value[i], maxWindow)
  {
    var gs := Ordered(issues, pulls);
    OrderedGroups(issues, pulls);
    GroupsFit(issues, pulls, maxWindow);
    assert forall k :: 0 <= k < |gs| ==> gs[k] in gs;
    PartsFit(gs, maxWindow);
    PartFrom(gs, maxWindow, i);
    hide Ordered, Sound, Cut, WindowOf;
    PartIsSound(Cut(gs, maxWindow)[i], maxWindow);
  }

  /** Some window has a row of this identity. */
  ghost predicate Covered(ws: seq<Window>, x: Ident) {
    exists i :: 0 <= i < |ws| && x in Idents(ws[i].issues)
  }

  lemma GroupIsCovered(issues: seq<Issue>, pulls: seq<Pull>, maxWindow: nat, g: Group, x: Issue)
    requires Windows(issues, pulls, maxWindow).Ok? && g in Ordered(issues, pulls) && x in g.issues
    ensures Covered(Windows(issues, pulls, maxWindow).value, IdentOf(x))
  {
    var gs := Ordered(issues, pulls);
    var i := PartOf(gs, maxWindow, g);
    var part := Cut(gs, maxWindow)[i];
    var k :| 0 <= k < |part| && part[k] == g;
    RowIsListed(part, k, x);
    hide Ordered, Cut;
    assert IdentOf(x) in Idents(Windows(issues, pulls, maxWindow).value[i].issues);
  }

  lemma {:induction false} CarriedIsCovered(issues: seq<Issue>, pulls: seq<Pull>, maxWindow: nat, x: Ident)
    requires Windows(issues, pulls, maxWindow).Ok? && x in Carried(pulls)
    ensures Covered(Windows(issues, pulls, maxWindow).value, x)
  {
    OrderedGroups(issues, pulls);
    CarriedMember(pulls, x);
    hide Windows, Ordered, Covered;
    var i :| 0 <= i < |pulls| && x in Idents(pulls[i].closing);
    var k :| 0 <= k < |pulls[i].closing| && Idents(pulls[i].closing)[k] == x;
    var g := PullGroups(pulls)[i];
    SameMembers(g.issues, pulls[i].closing);
    assert pulls[i].closing[k] in g.issues;
    GroupIsCovered(issues, pulls, maxWindow, g, pulls[i].closing[k]);
  }

  lemma {:induction false} StandaloneIsCovered(issues: seq<Issue>, pulls: seq<Pull>, maxWindow: nat, x: Ident)
    requires Windows(issues, pulls, maxWindow).Ok? && x in Idents(issues) && x !in Carried(pulls)
    ensures Covered(Windows(issues, pulls, maxWindow).value, x)
  {
    OrderedGroups(issues, pulls);
    hide Windows, Ordered, Covered, Whole;
    var i :| 0 <= i < |issues| && Idents(issues)[i] == x;
    var g := StandaloneGroup(issues[i]);
    StandaloneMember(issues, Carried(pulls), g);
    GroupIsCovered(issues, pulls, maxWindow, g, issues[i]);
  }

  /** Windows hold exactly the fetched identities: every fetched issue and every reference of a fetched
      pull is a row of some window, and no row comes from anywhere else. */
  lemma {:induction false} WindowsCover(issues: seq<Issue>, pulls: seq<Pull>, maxWindow: nat, x: Ident)
    requires Windows(issues, pulls, maxWindow).Ok?
    ensures Covered(Windows(issues, pulls, maxWindow).value, x) <==> x in Idents(issues) || x in Carried(pulls)
  {
    hide Windows, Covered, Carried;
    if x in Carried(pulls) {
      CarriedIsCovered(issues, pulls, maxWindow, x);
    } else if x in Idents(issues) {
      StandaloneIsCovered(issues, pulls, maxWindow, x);
    } else if Covered(Windows(issues, pulls, maxWindow).value, x) {
      CoveredIsFetched(issues, pulls, maxWindow, x);
    }
  }

  lemma {:induction false} CoveredIsFetched(issues: seq<Issue>, pulls: seq<Pull>, maxWindow: nat, x: Ident)
    requires Windows(issues, pulls, maxWindow).Ok? && Covered(Windows(issues, pulls, maxWindow).value, x)
    ensures x in Idents(issues) || x in Carried(pulls)
  {
    hide Ordered, Whole, Carried, Cut, IssuesIn, Deduped, PullsIn, StandaloneGroups, PullGroups;
    var gs := Ordered(issues, pulls);
    OrderedGroups(issues, pulls);
    var ws := Windows(issues, pulls, maxWindow).value;
    var w :| 0 <= w < |ws| && x in Idents(ws[w].issues);
    var part := Cut(gs, maxWindow)[w];
    PartFrom(gs, maxWindow, w);
    var k :| 0 <= k < |ws[w].issues| && Idents(ws[w].issues)[k] == x;
    var row := ws[w].issues[k];
    DedupedKeeps(IssuesIn(part));
    var g := IssueFrom(part, row);
    GroupRowIsFetched(issues, pulls, part[g], row);
  }

  lemma {:induction false} GroupRowIsFetched(issues: seq<Issue>, pulls: seq<Pull>, g: Group, row: Issue)
    requires g in StandaloneGroups(issues, Carried(pulls)) || g in PullGroups(pulls)
    requires row in g.issues
    ensures IdentOf(row) in Idents(issues) || IdentOf(row) in Carried(pulls)
  {
    StandaloneMember(issues, Carried(pulls), g);
    CarriedMember(pulls, IdentOf(row));
    if g in PullGroups(pulls) {
      var i :| 0 <= i < |pulls| && PullGroups(pulls)[i] == g;
      SameMembers(g.issues, pulls[i].closing);
      IdentMember(pulls[i].closing, row);
    } else {
      var i :| 0 <= i < |issues| && g == StandaloneGroup(issues[i]);
      IdentMember(issues, issues[i]);
    }
  }
}
