/** One adapter run walks two streams under a shared fetch bound, submits windows and saves a cursor.
    Over any number of runs, nothing older than the saved cursor is left behind. */
module GithubRuns {
  import opened Common
  import opened GithubWindows
  import opened GithubUnits
  import Splitter

  /** The repository as its API lists it: issues oldest first, pulls newest first. */
  datatype Source = Source(owner: string, repo: string, issues: seq<Issue>, pulls: seq<Pull>)

  ghost predicate Listed(src: Source) {
    && (forall i, j :: 0 <= i < j < |src.issues| ==> src.issues[i].updatedAt <= src.issues[j].updatedAt)
    && (forall i, j :: 0 <= i < j < |src.pulls| ==> src.pulls[i].updatedAt >= src.pulls[j].updatedAt)
  }

  /** The server's inclusive filter; 0 asks for everything. */
  function Since(issues: seq<Issue>, resume: Stamp): seq<Issue> {
    if issues == [] then []
    else if issues[0].updatedAt >= resume then [issues[0]] + Since(issues[1..], resume)
    else Since(issues[1..], resume)
  }

  // ----- the walks

  datatype Fetch = Fetch(issues: seq<Issue>, issuesTruncated: bool, pulls: seq<Pull>, pullsTruncated: bool)

  ghost predicate ReachedBacklog(pulls: seq<Pull>, resume: Stamp) {
    exists i :: 0 <= i < |pulls| && pulls[i].updatedAt < resume
  }

  /** What a walk of both streams brings home. */
  ghost predicate Walked(src: Source, resume: Stamp, f: Fetch) {
    && f.issues <= Since(src.issues, resume) && (!f.issuesTruncated ==> f.issues == Since(src.issues, resume))
    && f.pulls <= src.pulls && (!f.pullsTruncated ==> f.pulls == src.pulls || ReachedBacklog(f.pulls, resume))
  }

  function PullRowsOf(page: seq<Pull>): nat {
    if page == [] then 0 else PullRowsOf(page[..|page| - 1]) + 1 + |page[|page| - 1].closing|
  }

  lemma {:induction false} PullRowsConcat(a: seq<Pull>, b: seq<Pull>)
    ensures PullRowsOf(a + b) == PullRowsOf(a) + PullRowsOf(b)
  {
    if b == [] {
      assert a + b == a;
    } else {
      assert (a + b)[..|a| + |b| - 1] == a + b[..|b| - 1];
      PullRowsConcat(a, b[..|b| - 1]);
    }
  }

  /** Ascending pages until the fetch bound or the last page. */
  method WalkIssues(pages: seq<seq<Issue>>, fetchBound: nat) returns (issues: seq<Issue>, rows: nat, truncated: bool)
    requires pages != []
    ensures issues <= Flat(pages) && rows == |issues|
    ensures truncated <==> rows >= fetchBound
    ensures !truncated ==> issues == Flat(pages)
  {
    issues, rows, truncated := [], 0, false;
    var i := 0;
    while true
      invariant i < |pages| && issues == Flat(pages[..i]) && rows == |issues| && !truncated
      decreases |pages| - i
    {
      FlatStep(pages, i);
      rows := rows + |pages[i]|;
      issues := issues + pages[i];
      if rows >= fetchBound {
        truncated := true;
        break;
      }
      if i + 1 == |pages| {
        assert pages[..i + 1] == pages;
        break;
      }
      i := i + 1;
    }
  }

  method AnyOlder(page: seq<Pull>, resume: Stamp) returns (found: bool)
    ensures found <==> ReachedBacklog(page, resume)
  {
    found := false;
    for i := 0 to |page|
      invariant found <==> exists k :: 0 <= k < i && page[k].updatedAt < resume
    {
      if page[i].updatedAt < resume { found := true; }
    }
  }

  /** Newest-first pages, each kept whole, until one reaches behind the resume point, the shared fetch
      bound, or the last page. */
  method WalkPulls(pages: seq<seq<Pull>>, resume: Stamp, rows0: nat, fetchBound: nat)
      returns (pulls: seq<Pull>, rows: nat, truncated: bool)
    requires pages != []
    ensures pulls <= Flat(pages) && rows == rows0 + PullRowsOf(pulls)
    ensures truncated <==> rows >= fetchBound && !ReachedBacklog(pulls, resume)
    ensures !truncated ==> pulls == Flat(pages) || ReachedBacklog(pulls, resume)
  {
    pulls, rows, truncated := [], rows0, false;
    var i := 0;
    while true
      invariant i < |pages| && pulls == Flat(pages[..i]) && rows == rows0 + PullRowsOf(pulls) && !truncated
      invariant !ReachedBacklog(pulls, resume)
      decreases |pages| - i
    {
      FlatStep(pages, i);
      ghost var before := pulls;
      var reached := AnyOlder(pages[i], resume);
      rows := rows + PullRowsOf(pages[i]);
      pulls := pulls + pages[i];
      BacklogSplits(before, pages[i], resume);
      PullRowsConcat(before, pages[i]);
      if reached { break; }
      if rows >= fetchBound {
        truncated := true;
        break;
      }
      if i + 1 == |pages| {
        assert pages[..i + 1] == pages;
        break;
      }
      i := i + 1;
    }
  }

  /** The walks were cut exactly where the fetch bound is reached: the issues alone, or both together before the
      pulls reach behind the resume point. */
  ghost predicate Bounded(f: Fetch, resume: Stamp, maxWindow: nat) {
    && (f.issuesTruncated <==> |f.issues| >= 50 * maxWindow)
    && (f.pullsTruncated <==>
          |f.issues| + PullRowsOf(f.pulls) >= 50 * maxWindow && !ReachedBacklog(f.pulls, resume))
  }

  lemma BacklogSplits(a: seq<Pull>, b: seq<Pull>, resume: Stamp)
    ensures ReachedBacklog(a + b, resume) <==> ReachedBacklog(a, resume) || ReachedBacklog(b, resume)
  {
    if ReachedBacklog(a, resume) {
      var i :| 0 <= i < |a| && a[i].updatedAt < resume;
      assert (a + b)[i].updatedAt < resume;
    }
    if ReachedBacklog(b, resume) {
      var i :| 0 <= i < |b| && b[i].updatedAt < resume;
      assert (a + b)[|a| + i].updatedAt < resume;
    }
  }

  // ----- the cursor

  function OrEmpty(s: Option<Stamp>): Stamp { if s.Some? then s.value else 0 }

  function SafeCursorCeiling(issuesTruncated: bool, issuesFrontier: Option<Stamp>, pullsTruncated: bool,
      resume: Option<Stamp>): Option<Stamp> {
    var ceiling := if issuesTruncated then Some(OrEmpty(issuesFrontier)) else None;
    if pullsTruncated then
      var hold := OrEmpty(resume);
      Some(if ceiling.Some? && ceiling.value != 0 then Min(ceiling.value, hold) else hold)
    else ceiling
  }

  /** What a settled window writes: 0 writes nothing. */
  function Effective(ceiling: Option<Stamp>, cursor: Stamp): Stamp {
    if ceiling.None? then cursor else if ceiling.value == 0 then 0 else Min(ceiling.value, cursor)
  }

  function Frontier(issues: seq<Issue>): Option<Stamp> {
    if issues == [] then None else Some(Newest(issues, 0))
  }

  function AsOption(s: Stamp): Option<Stamp> { if s == 0 then None else Some(s) }

  function CeilingOf(f: Fetch, resume: Stamp): Option<Stamp> {
    SafeCursorCeiling(f.issuesTruncated, Frontier(f.issues), f.pullsTruncated, AsOption(resume))
  }

  /** A written cursor passes neither the newest fetched issue of a cut issues walk, nor the resume point
      of a cut pulls walk. */
  lemma CeilingHolds(f: Fetch, resume: Stamp, cursor: Stamp)
    ensures var c := Effective(CeilingOf(f, resume), cursor);
      c != 0 ==>
        && c <= cursor
        && (f.issuesTruncated ==> c <= Newest(f.issues, 0) || c <= resume)
        && (f.pullsTruncated ==> c <= resume)
  {
  }

  lemma {:induction false} SincePrefix(issues: seq<Issue>, resume: Stamp, i: nat, n: nat)
    requires forall a, b :: 0 <= a < b < |issues| ==> issues[a].updatedAt <= issues[b].updatedAt
    requires i < |issues| && resume <= issues[i].updatedAt && n < |Since(issues, resume)|
    requires issues[i].updatedAt < Since(issues, resume)[n].updatedAt
    ensures issues[i] in Since(issues, resume)[..n]
  {
    var rest := Since(issues[1..], resume);
    if issues[0].updatedAt >= resume {
      if n > 0 {
        assert Since(issues, resume)[..n] == [issues[0]] + rest[..n - 1];
        if i > 0 { SincePrefix(issues[1..], resume, i - 1, n - 1); }
      }
    } else {
      SincePrefix(issues[1..], resume, i - 1, n);
    }
  }

  lemma {:induction false} SinceKeeps(issues: seq<Issue>, resume: Stamp, i: nat)
    requires i < |issues| && resume <= issues[i].updatedAt
    ensures issues[i] in Since(issues, resume)
  {
    if i > 0 { SinceKeeps(issues[1..], resume, i - 1); }
  }

  /** No issue between the resume point and a written cursor stays unfetched. */
  lemma IssueIsFetched(src: Source, resume: Stamp, f: Fetch, c: Stamp, i: nat)
    requires Listed(src) && Walked(src, resume, f) && i < |src.issues|
    requires resume <= src.issues[i].updatedAt < c
    requires f.issuesTruncated ==> c <= Newest(f.issues, 0) || c <= resume
    ensures src.issues[i] in f.issues
  {
    SinceKeeps(src.issues, resume, i);
    if f.issuesTruncated {
      var n :| 0 <= n < |f.issues| && f.issues[n].updatedAt == Newest(f.issues, 0);
      assert f.issues[n] == Since(src.issues, resume)[n];
      SincePrefix(src.issues, resume, i, n);
      assert f.issues[..n] == Since(src.issues, resume)[..n];
    }
  }

  /** No pull between the resume point and a written cursor stays unfetched. */
  lemma PullIsFetched(src: Source, resume: Stamp, f: Fetch, c: Stamp, i: nat)
    requires Listed(src) && Walked(src, resume, f) && i < |src.pulls|
    requires resume <= src.pulls[i].updatedAt < c && (f.pullsTruncated ==> c <= resume)
    ensures src.pulls[i] in f.pulls
  {
    if f.pulls != src.pulls {
      var k :| 0 <= k < |f.pulls| && f.pulls[k].updatedAt < resume;
      assert f.pulls[k] == src.pulls[k];
      assert i < k;
      assert f.pulls[i] == src.pulls[i];
    }
  }

  // ----- what is durable

  /** The cursor file (0: none yet) and the rows the backend has settled. */
  datatype Durable = Durable(file: Stamp, issues: set<Ident>, pulls: set<nat>)

  function IdentSet(s: seq<Issue>): set<Ident> {
    var ids := Idents(s);
    set x | x in ids
  }

  function NumberSet(s: seq<Pull>): set<nat> {
    var numbers := Numbers(s);
    set n | n in numbers
  }

  /** One settled window: its rows are kept, then the clamped cursor is written. */
  function Settle(d: Durable, w: Window, ceiling: Option<Stamp>): Durable {
    var c := Effective(ceiling, OrEmpty(CursorFor(w)));
    Durable(if c != 0 then c else d.file, d.issues + IdentSet(w.issues), d.pulls + NumberSet(w.pulls))
  }

  function SettleAll(d: Durable, ws: seq<Window>, ceiling: Option<Stamp>): Durable {
    if ws == [] then d else Settle(SettleAll(d, ws[..|ws| - 1], ceiling), ws[|ws| - 1], ceiling)
  }

  function Reversed<T>(s: seq<T>): (r: seq<T>)
    ensures |r| == |s| && forall i :: 0 <= i < |s| ==> r[i] == s[|s| - 1 - i]
  {
    seq(|s|, i requires 0 <= i < |s| => s[|s| - 1 - i])
  }

  function FoldPulls(owner: string, repo: string, s: seq<Pull>): (r: seq<Pull>)
    ensures |r| == |s| && forall i :: 0 <= i < |s| ==> r[i] == FoldPull(owner, repo, s[i])
  {
    seq(|s|, i requires 0 <= i < |s| => FoldPull(owner, repo, s[i]))
  }

  /** The pulls handed to the chunker: oldest first, references folded. */
  function Prepared(src: Source, f: Fetch): seq<Pull> { FoldPulls(src.owner, src.repo, Reversed(f.pulls)) }

  function RunWindows(src: Source, f: Fetch, maxWindow: nat): Result<seq<Window>, nat> {
    Windows(f.issues, Prepared(src, f), maxWindow)
  }

  /** Where a run picks up: the cursor file, or the operator's seed on a first run. */
  function ResumeFrom(file: Stamp, seed: Stamp): Stamp { if file != 0 then file else seed }

  function ResumeAt(d: Durable, seed: Stamp): Stamp { ResumeFrom(d.file, seed) }

  /** Every issue and pull from the seed up to the saved cursor has been settled. */
  ghost predicate NoLoss(src: Source, seed: Stamp, d: Durable) {
    && (forall i :: 0 <= i < |src.issues| ==> seed <= src.issues[i].updatedAt < d.file ==>
      IdentOf(src.issues[i]) in d.issues)
    && (forall i :: 0 <= i < |src.pulls| ==> seed <= src.pulls[i].updatedAt < d.file ==> src.pulls[i].number in d.pulls)
  }

  lemma {:induction false} SettleAllKeeps(d: Durable, ws: seq<Window>, ceiling: Option<Stamp>, i: nat)
    ensures d.issues <= SettleAll(d, ws, ceiling).issues && d.pulls <= SettleAll(d, ws, ceiling).pulls
    ensures i < |ws| ==>
      && IdentSet(ws[i].issues) <= SettleAll(d, ws, ceiling).issues
      && NumberSet(ws[i].pulls) <= SettleAll(d, ws, ceiling).pulls
  {
    if ws != [] {
      SettleAllKeeps(d, ws[..|ws| - 1], ceiling, i);
      hide IdentSet, NumberSet;
    }
  }

  /** The file holds what it held, or what one of the settled windows wrote. */
  lemma {:induction false} SettleAllFile(d: Durable, ws: seq<Window>, ceiling: Option<Stamp>) returns (i: nat)
    ensures var after := SettleAll(d, ws, ceiling);
      after.file != d.file ==> i < |ws| && after.file == Effective(ceiling, OrEmpty(CursorFor(ws[i]))) != 0
  {
    i := 0;
    if ws != [] {
      hide CursorFor, Effective, IdentSet, NumberSet;
      var n := |ws| - 1;
      if Effective(ceiling, OrEmpty(CursorFor(ws[n]))) != 0 { i := n; }
        else { i := SettleAllFile(d, ws[..n], ceiling); }
    }
  }

  lemma FetchedPullIsWindowed(src: Source, f: Fetch, maxWindow: nat, p: Pull) returns (w: nat)
    requires RunWindows(src, f, maxWindow).Ok? && p in f.pulls
    ensures w < |RunWindows(src, f, maxWindow).value|
      && p.number in NumberSet(RunWindows(src, f, maxWindow).value[w].pulls)
  {
    var pulls := Prepared(src, f);
    var k := PreparedAt(src, f, p);
    var ws := RunWindows(src, f, maxWindow).value;
    PullsConserved(f.issues, pulls, maxWindow);
    SameMembers(Flat(WindowPulls(ws)), pulls);
    hide RunWindows, Prepared, FoldPull, Windows;
    FlatMember(WindowPulls(ws), pulls[k]);
    w :| 0 <= w < |ws| && pulls[k] in WindowPulls(ws)[w];
    NumberMember(ws[w].pulls, pulls[k]);
  }

  lemma NumberMember(s: seq<Pull>, p: Pull)
    requires p in s
    ensures p.number in NumberSet(s)
  {
    var i :| 0 <= i < |s| && s[i] == p;
    assert Numbers(s)[i] == p.number;
  }

  lemma PreparedAt(src: Source, f: Fetch, p: Pull) returns (k: nat)
    requires p in f.pulls
    ensures k < |Prepared(src, f)| && Prepared(src, f)[k] == FoldPull(src.owner, src.repo, p)
  {
    var i :| 0 <= i < |f.pulls| && f.pulls[i] == p;
    k := |f.pulls| - 1 - i;
    assert Reversed(f.pulls)[k] == p;
  }

  lemma FetchedIssueIsWindowed(src: Source, f: Fetch, maxWindow: nat, x: Issue) returns (w: nat)
    requires RunWindows(src, f, maxWindow).Ok? && x in f.issues
    ensures w < |RunWindows(src, f, maxWindow).value|
      && IdentOf(x) in IdentSet(RunWindows(src, f, maxWindow).value[w].issues)
  {
    IdentMember(f.issues, x);
    WindowsCover(f.issues, Prepared(src, f), maxWindow, IdentOf(x));
    var ws := RunWindows(src, f, maxWindow).value;
    hide Windows, Prepared;
    w :| 0 <= w < |ws| && IdentOf(x) in Idents(ws[w].issues);
  }

  lemma {:induction false} SettledIssue(src: Source, d: Durable, f: Fetch, maxWindow: nat, ws: seq<Window>,
      resume: Stamp, c: Stamp,
      i: nat)
    requires Listed(src) && Walked(src, resume, f) && RunWindows(src, f, maxWindow) == Ok(ws) && i < |src.issues|
    requires resume <= src.issues[i].updatedAt < c && (f.issuesTruncated ==> c <= Newest(f.issues, 0) || c <= resume)
    ensures IdentOf(src.issues[i]) in SettleAll(d, ws, CeilingOf(f, resume)).issues
  {
    IssueIsFetched(src, resume, f, c, i);
    var w := FetchedIssueIsWindowed(src, f, maxWindow, src.issues[i]);
    hide RunWindows, SettleAll, Walked, Listed, Newest, CeilingOf;
    SettleAllKeeps(d, ws, CeilingOf(f, resume), w);
  }

  lemma {:induction false} SettledPull(src: Source, d: Durable, f: Fetch, maxWindow: nat, ws: seq<Window>,
      resume: Stamp, c: Stamp, i: nat)
    requires Listed(src) && Walked(src, resume, f) && RunWindows(src, f, maxWindow) == Ok(ws) && i < |src.pulls|
    requires resume <= src.pulls[i].updatedAt < c && (f.pullsTruncated ==> c <= resume)
    ensures src.pulls[i].number in SettleAll(d, ws, CeilingOf(f, resume)).pulls
  {
    PullIsFetched(src, resume, f, c, i);
    var w := FetchedPullIsWindowed(src, f, maxWindow, src.pulls[i]);
    hide RunWindows, SettleAll, Walked, Listed, CeilingOf;
    SettleAllKeeps(d, ws, CeilingOf(f, resume), w);
  }

  /** A fully settled run keeps the promise, whether the issues walk, the pulls walk, both or neither
      were cut short. */
  lemma {:induction false} SettledRunLosesNothing(src: Source, seed: Stamp, d: Durable, f: Fetch, maxWindow: nat)
    requires Listed(src) && NoLoss(src, seed, d) && Walked(src, ResumeAt(d, seed), f)
    requires RunWindows(src, f, maxWindow).Ok?
    ensures NoLoss(src, seed, SettleAll(d, RunWindows(src, f, maxWindow).value, CeilingOf(f, ResumeAt(d, seed))))
  {
    hide RunWindows, CeilingOf, SettleAll, Walked, CursorFor, Effective, Listed, Newest, Idents;
    var (ws, resume) := (RunWindows(src, f, maxWindow).value, ResumeAt(d, seed));
    var ceiling := CeilingOf(f, resume);
    var after := SettleAll(d, ws, ceiling);
    SettleAllKeeps(d, ws, ceiling, 0);
    var j := SettleAllFile(d, ws, ceiling);
    if after.file != d.file {
      CeilingHolds(f, resume, OrEmpty(CursorFor(ws[j])));
      forall i | 0 <= i < |src.issues| && seed <= src.issues[i].updatedAt < after.file
        ensures IdentOf(src.issues[i]) in after.issues
      {
        if resume <= src.issues[i].updatedAt { SettledIssue(src, d, f, maxWindow, ws, resume, after.file, i); }
      }
      forall i | 0 <= i < |src.pulls| && seed <= src.pulls[i].updatedAt < after.file
        ensures src.pulls[i].number in after.pulls
      {
        if resume <= src.pulls[i].updatedAt { SettledPull(src, d, f, maxWindow, ws, resume, after.file, i); }
      }
    }
  }

  // ----- every window a run submits is a valid unit

  lemma PreparedIsFolded(src: Source, f: Fetch, k: nat)
    requires k < |f.pulls|
    ensures |Prepared(src, f)| == |f.pulls|
    ensures Prepared(src, f)[k] == FoldPull(src.owner, src.repo, f.pulls[|f.pulls| - 1 - k])
    ensures Local(src.owner, src.repo, Prepared(src, f)[k].closing)
  {
    FoldedIsLocal(src.owner, src.repo, f.pulls[|f.pulls| - 1 - k]);
    hide FoldPull, Local;
  }

  lemma PreparedNumbers(src: Source, f: Fetch)
    requires Distinct(Numbers(f.pulls))
    ensures Distinct(Numbers(Prepared(src, f)))
  {
    var (prepared, n) := (Prepared(src, f), |f.pulls|);
    forall i, j | 0 <= i < j < |prepared| ensures Numbers(prepared)[i] != Numbers(prepared)[j] {
      PreparedIsFolded(src, f, i);
      PreparedIsFolded(src, f, j);
      assert Numbers(f.pulls)[n - 1 - j] != Numbers(f.pulls)[n - 1 - i];
    }
  }

  /** What a run submits passes validation: the source lists its own issues without a repository, and no pull
      was fetched twice. */
  lemma RunUnitsAreValid(src: Source, f: Fetch, maxWindow: nat, i: nat)
    requires RunWindows(src, f, maxWindow).Ok? && i < |RunWindows(src, f, maxWindow).value|
    requires Distinct(Numbers(f.pulls)) && forall k :: 0 <= k < |f.issues| ==> f.issues[k].repo == None
    ensures var unit := UnitOf(src.owner, src.repo, RunWindows(src, f, maxWindow).value[i]);
      Splitter.ValidUnit(unit) && 1 <= |unit.memories| <= Max(1, maxWindow)
  {
    var pulls := Prepared(src, f);
    PreparedNumbers(src, f);
    forall k | 0 <= k < |pulls| ensures Local(src.owner, src.repo, pulls[k].closing) { PreparedIsFolded(src, f, k); }
    hide Prepared, Windows, UnitOf, Numbers;
    ChunkedUnitsAreValid(src.owner, src.repo, f.issues, pulls, maxWindow, i);
  }
}
