/** Runs that stop between windows: exactly when a written cursor leaves nothing behind. */
module GithubStops {
  import opened Common
  import opened Sorting
  import opened GithubWindows
  import opened GithubCursors
  import opened GithubUnits
  import opened GithubRuns

  /** The issues a pull closes, as this repository identifies them. */
  function RefsIn(owner: string, repo: string, p: Pull): seq<Ident> { Idents(FoldPull(owner, repo, p).closing) }

  function Refs(src: Source, p: Pull): seq<Ident> { RefsIn(src.owner, src.repo, p) }

  /** A pull at or after the cursor, which later runs fetch again, carries this issue. */
  ghost predicate Awaited(src: Source, cursor: Stamp, x: Ident) {
    exists k :: 0 <= k < |src.pulls| && src.pulls[k].updatedAt >= cursor && x in Refs(src, src.pulls[k])
  }

  /** What survives a run that stops between windows: everything older than the cursor is settled, or is
      an issue that a pull still ahead of the cursor will bring. */
  ghost predicate Safe(src: Source, seed: Stamp, d: Durable) {
    && (forall i :: 0 <= i < |src.issues| ==> seed <= src.issues[i].updatedAt < d.file ==>
          IdentOf(src.issues[i]) in d.issues || Awaited(src, d.file, IdentOf(src.issues[i])))
    && (forall i :: 0 <= i < |src.pulls| ==> seed <= src.pulls[i].updatedAt < d.file ==> src.pulls[i].number in d.pulls)
  }

  /** No pull closes an issue updated after it. */
  ghost predicate RefsNoNewer(src: Source) {
    forall k :: 0 <= k < |src.pulls| ==> RefsBefore(src.pulls[k])
  }

  ghost predicate RefsBefore(p: Pull) {
    forall i :: 0 <= i < |p.closing| ==> p.closing[i].updatedAt <= p.updatedAt
  }

  /** A settled window has a row of this identity. */
  predicate SettledBy(ws: seq<Window>, x: Ident) {
    exists m :: 0 <= m < |ws| && x in IdentSet(ws[m].issues)
  }

  predicate PullSettledBy(ws: seq<Window>, number: nat) {
    exists m :: 0 <= m < |ws| && number in NumberSet(ws[m].pulls)
  }

  /** What a settled window writes to the cursor file; 0 is nothing. */
  function Written(f: Fetch, resume: Stamp, w: Window): Stamp {
    Effective(CeilingOf(f, resume), OrEmpty(CursorFor(w)))
  }

  /** Window `i` writes a cursor past a pull that waits in a later window and has not been settled yet. */
  ghost predicate PullStrands(seed: Stamp, d: Durable, f: Fetch, ws: seq<Window>, i: nat, j: nat, k: nat) {
    && i < j < |ws| && k < |ws[j].pulls|
    && seed <= ws[j].pulls[k].updatedAt < Written(f, ResumeAt(d, seed), ws[i])
    && ws[j].pulls[k].number !in d.pulls && !PullSettledBy(ws[..i + 1], ws[j].pulls[k].number)
  }

  /** The same of an issue that no pull ahead of that cursor will bring again. */
  ghost predicate IssueStrands(src: Source, seed: Stamp, d: Durable, f: Fetch, ws: seq<Window>, i: nat, j: nat,
      k: nat) {
    && i < j < |ws| && k < |src.issues| && IdentOf(src.issues[k]) in IdentSet(ws[j].issues)
    && seed <= src.issues[k].updatedAt < Written(f, ResumeAt(d, seed), ws[i])
    && IdentOf(src.issues[k]) !in d.issues && !SettledBy(ws[..i + 1], IdentOf(src.issues[k]))
    && !Awaited(src, Written(f, ResumeAt(d, seed), ws[i]), IdentOf(src.issues[k]))
  }

  /** No window writes past a row that only a later window settles. This reads what the backend holds and the
      whole listing; `GithubChecks.NothingWaits` is its counterpart over what the run has at hand. */
  ghost predicate NothingStrands(src: Source, seed: Stamp, d: Durable, f: Fetch, ws: seq<Window>) {
    && (forall i: nat, j: nat, k: nat :: !PullStrands(seed, d, f, ws, i, j, k))
    && (forall i: nat, j: nat, k: nat :: !IssueStrands(src, seed, d, f, ws, i, j, k))
  }

  // ----- what a prefix of windows settles

  /** The state after the first `n` windows settle. */
  function AfterWindows(seed: Stamp, d: Durable, f: Fetch, ws: seq<Window>, n: nat): Durable
    requires n <= |ws|
  {
    SettleAll(d, ws[..n], CeilingOf(f, ResumeAt(d, seed)))
  }

  lemma {:induction false} SettleAllExact(d: Durable, ws: seq<Window>, ceiling: Option<Stamp>, x: Ident, number: nat)
    ensures x in SettleAll(d, ws, ceiling).issues <==> x in d.issues || SettledBy(ws, x)
    ensures number in SettleAll(d, ws, ceiling).pulls <==> number in d.pulls || PullSettledBy(ws, number)
  {
    if ws != [] {
      var n := |ws| - 1;
      SettleAllExact(d, ws[..n], ceiling, x, number);
      hide IdentSet, NumberSet;
      SettledStep(ws, x, number);
      hide SettledBy, PullSettledBy;
    }
  }

  lemma SettledStep(ws: seq<Window>, x: Ident, number: nat)
    requires ws != []
    ensures SettledBy(ws, x) <==> SettledBy(ws[..|ws| - 1], x) || x in IdentSet(ws[|ws| - 1].issues)
    ensures PullSettledBy(ws, number) <==>
      PullSettledBy(ws[..|ws| - 1], number) || number in NumberSet(ws[|ws| - 1].pulls)
  {
    hide IdentSet, NumberSet;
    var n := |ws| - 1;
    if SettledBy(ws[..n], x) {
      var m :| 0 <= m < n && x in IdentSet(ws[..n][m].issues);
      assert x in IdentSet(ws[m].issues);
    }
    if SettledBy(ws, x) && x !in IdentSet(ws[n].issues) {
      var m :| 0 <= m < |ws| && x in IdentSet(ws[m].issues);
      assert x in IdentSet(ws[..n][m].issues);
    }
    if PullSettledBy(ws[..n], number) {
      var m :| 0 <= m < n && number in NumberSet(ws[..n][m].pulls);
      assert number in NumberSet(ws[m].pulls);
    }
    if PullSettledBy(ws, number) && number !in NumberSet(ws[n].pulls) {
      var m :| 0 <= m < |ws| && number in NumberSet(ws[m].pulls);
      assert number in NumberSet(ws[..n][m].pulls);
    }
  }

  lemma SettledEarlier(ws: seq<Window>, a: nat, b: nat, x: Ident, number: nat)
    requires a <= b <= |ws|
    ensures SettledBy(ws[..a], x) ==> SettledBy(ws[..b], x)
    ensures PullSettledBy(ws[..a], number) ==> PullSettledBy(ws[..b], number)
  {
    hide IdentSet, NumberSet;
    if SettledBy(ws[..a], x) {
      var m :| 0 <= m < a && x in IdentSet(ws[..a][m].issues);
      assert x in IdentSet(ws[..b][m].issues);
    }
    if PullSettledBy(ws[..a], number) {
      var m :| 0 <= m < a && number in NumberSet(ws[..a][m].pulls);
      assert number in NumberSet(ws[..b][m].pulls);
    }
  }

  lemma FileAfter(seed: Stamp, d: Durable, f: Fetch, ws: seq<Window>, i: nat)
    requires i < |ws| && Written(f, ResumeAt(d, seed), ws[i]) != 0
    ensures AfterWindows(seed, d, f, ws, i + 1).file == Written(f, ResumeAt(d, seed), ws[i])
  {
    assert ws[..i + 1][..i] == ws[..i];
    hide CursorFor, Effective, CeilingOf, IdentSet, NumberSet;
  }

  /** The file holds what it held, or what one of the settled windows wrote within both limits. */
  lemma WriterOf(seed: Stamp, d: Durable, f: Fetch, ws: seq<Window>, n: nat) returns (i: nat)
    requires n <= |ws|
    ensures var (c, resume) := (AfterWindows(seed, d, f, ws, n).file, ResumeAt(d, seed));
      c != d.file ==>
        && i < n && c == Written(f, resume, ws[i]) != 0 && c <= OrEmpty(CursorFor(ws[i]))
        && (f.issuesTruncated ==> c <= Newest(f.issues, 0) || c <= resume)
        && (f.pullsTruncated ==> c <= resume)
  {
    var resume := ResumeAt(d, seed);
    hide CeilingOf, SettleAll, CursorFor, Newest, Effective;
    i := SettleAllFile(d, ws[..n], CeilingOf(f, resume));
    if i < n { CeilingHolds(f, resume, OrEmpty(CursorFor(ws[i]))); }
  }

  // ----- windows and the source

  lemma FetchedPullAt(src: Source, f: Fetch, maxWindow: nat, ws: seq<Window>, p: Pull) returns (w: nat, k: nat)
    requires RunWindows(src, f, maxWindow) == Ok(ws) && p in f.pulls
    ensures w < |ws| && k < |ws[w].pulls| && ws[w].pulls[k] == FoldPull(src.owner, src.repo, p)
  {
    var pulls := Prepared(src, f);
    var t := PreparedAt(src, f, p);
    PullsConserved(f.issues, pulls, maxWindow);
    SameMembers(Flat(WindowPulls(ws)), pulls);
    hide RunWindows, Prepared, FoldPull, Windows;
    FlatMember(WindowPulls(ws), pulls[t]);
    w :| 0 <= w < |ws| && pulls[t] in WindowPulls(ws)[w];
    k :| 0 <= k < |ws[w].pulls| && ws[w].pulls[k] == pulls[t];
  }

  lemma PreparedIsSource(src: Source, resume: Stamp, f: Fetch, p: Pull) returns (t: nat)
    requires Walked(src, resume, f) && p in Prepared(src, f)
    ensures t < |src.pulls| && src.pulls[t] in f.pulls && p == FoldPull(src.owner, src.repo, src.pulls[t])
  {
    var i :| 0 <= i < |Prepared(src, f)| && Prepared(src, f)[i] == p;
    t := |f.pulls| - 1 - i;
    hide FoldPull, Since;
    assert src.pulls[t] == f.pulls[t];
  }

  lemma WindowPullIsSource(src: Source, resume: Stamp, f: Fetch, maxWindow: nat, ws: seq<Window>, w: nat, k: nat)
      returns (t: nat)
    requires RunWindows(src, f, maxWindow) == Ok(ws) && Walked(src, resume, f) && w < |ws| && k < |ws[w].pulls|
    ensures t < |src.pulls| && src.pulls[t] in f.pulls && ws[w].pulls[k] == FoldPull(src.owner, src.repo, src.pulls[t])
  {
    var (pulls, p) := (Prepared(src, f), ws[w].pulls[k]);
    hide FoldPull, Windows, Flat, Prepared, Walked;
    PullsConserved(f.issues, pulls, maxWindow);
    hide RunWindows;
    SameMembers(Flat(WindowPulls(ws)), pulls);
    assert p in WindowPulls(ws)[w];
    FlatMember(WindowPulls(ws), p);
    t := PreparedIsSource(src, resume, f, p);
  }

  lemma FetchedRefIsWindowed(src: Source, f: Fetch, maxWindow: nat, ws: seq<Window>, p: Pull, x: Ident) returns (w: nat)
    requires RunWindows(src, f, maxWindow) == Ok(ws) && p in f.pulls && x in Refs(src, p)
    ensures w < |ws| && x in IdentSet(ws[w].issues)
  {
    var k;
    w, k := FetchedPullAt(src, f, maxWindow, ws, p);
    WindowsAreSound(f.issues, Prepared(src, f), maxWindow, w);
    hide Windows, Prepared, FoldPull;
    assert ws[w].pulls[k] in ws[w].pulls;
  }

  // ----- nothing stranded, nothing lost

  ghost predicate Running(src: Source, seed: Stamp, d: Durable, f: Fetch, maxWindow: nat, ws: seq<Window>) {
    && Listed(src) && Safe(src, seed, d) && Walked(src, ResumeAt(d, seed), f) && RunWindows(src, f, maxWindow) == Ok(ws)
  }

  lemma PullIsKept(src: Source, seed: Stamp, d: Durable, f: Fetch, maxWindow: nat, ws: seq<Window>, n: nat, i: nat,
      t: nat)
    requires Running(src, seed, d, f, maxWindow, ws) && NothingStrands(src, seed, d, f, ws) && i < n <= |ws|
      && t < |src.pulls|
    requires var c := Written(f, ResumeAt(d, seed), ws[i]);
      seed <= src.pulls[t].updatedAt < c && (f.pullsTruncated ==> c <= ResumeAt(d, seed))
    ensures src.pulls[t].number in d.pulls || PullSettledBy(ws[..n], src.pulls[t].number)
  {
    if ResumeAt(d, seed) <= src.pulls[t].updatedAt {
      PullIsFetched(src, ResumeAt(d, seed), f, Written(f, ResumeAt(d, seed), ws[i]), t);
      var w, k := FetchedPullAt(src, f, maxWindow, ws, src.pulls[t]);
      hide RunWindows, Safe, Walked, Listed, Written, NothingStrands;
      WaitingPullIsKept(src, seed, d, f, ws, n, i, w, k);
    }
  }

  lemma WaitingPullIsKept(src: Source, seed: Stamp, d: Durable, f: Fetch, ws: seq<Window>, n: nat, i: nat, w: nat,
      k: nat)
    requires NothingStrands(src, seed, d, f, ws) && i < n <= |ws| && w < |ws| && k < |ws[w].pulls|
    requires seed <= ws[w].pulls[k].updatedAt < Written(f, ResumeAt(d, seed), ws[i])
    ensures ws[w].pulls[k].number in d.pulls || PullSettledBy(ws[..n], ws[w].pulls[k].number)
  {
    hide Written;
    if w < n {
      NumberMember(ws[w].pulls, ws[w].pulls[k]);
      assert ws[..n][w] == ws[w];
    } else {
      assert !PullStrands(seed, d, f, ws, i, w, k);
      SettledEarlier(ws, i + 1, n, Ident(None, 0), ws[w].pulls[k].number);
    }
  }

  lemma RowIsKept(src: Source, seed: Stamp, d: Durable, f: Fetch, ws: seq<Window>, n: nat, i: nat, w: nat, k: nat)
    requires NothingStrands(src, seed, d, f, ws) && i < n <= |ws| && w < |ws| && k < |src.issues|
    requires IdentOf(src.issues[k]) in IdentSet(ws[w].issues)
    requires seed <= src.issues[k].updatedAt < Written(f, ResumeAt(d, seed), ws[i])
    ensures var x := IdentOf(src.issues[k]);
      x in d.issues || SettledBy(ws[..n], x) || Awaited(src, Written(f, ResumeAt(d, seed), ws[i]), x)
  {
    hide IdentSet, Written, Awaited;
    if w < n {
      assert ws[..n][w] == ws[w];
    } else {
      assert !IssueStrands(src, seed, d, f, ws, i, w, k);
      SettledEarlier(ws, i + 1, n, IdentOf(src.issues[k]), 0);
    }
  }

  lemma IssueIsKept(src: Source, seed: Stamp, d: Durable, f: Fetch, maxWindow: nat, ws: seq<Window>, n: nat, i: nat,
      k: nat)
    requires Running(src, seed, d, f, maxWindow, ws) && NothingStrands(src, seed, d, f, ws) && i < n <= |ws|
      && k < |src.issues|
    requires var (c, resume) := (Written(f, ResumeAt(d, seed), ws[i]), ResumeAt(d, seed));
      && seed <= src.issues[k].updatedAt < c && (f.pullsTruncated ==> c <= resume)
      && (f.issuesTruncated ==> c <= Newest(f.issues, 0) || c <= resume)
    ensures var x := IdentOf(src.issues[k]);
      x in d.issues || SettledBy(ws[..n], x) || Awaited(src, Written(f, ResumeAt(d, seed), ws[i]), x)
  {
    var (x, c, resume) := (IdentOf(src.issues[k]), Written(f, ResumeAt(d, seed), ws[i]), ResumeAt(d, seed));
    hide RunWindows, Written, IdentSet, Newest, NothingStrands;
    if resume <= src.issues[k].updatedAt {
      IssueIsFetched(src, resume, f, c, k);
      var w := FetchedIssueIsWindowed(src, f, maxWindow, src.issues[k]);
      RowIsKept(src, seed, d, f, ws, n, i, w, k);
    } else if x !in d.issues {
      var t :| 0 <= t < |src.pulls| && src.pulls[t].updatedAt >= d.file && x in Refs(src, src.pulls[t]);
      if src.pulls[t].updatedAt < c {
        PullIsFetched(src, resume, f, c, t);
        var w := FetchedRefIsWindowed(src, f, maxWindow, ws, src.pulls[t], x);
        RowIsKept(src, seed, d, f, ws, n, i, w, k);
      }
    }
  }

  lemma IssueAfter(src: Source, seed: Stamp, d: Durable, f: Fetch, maxWindow: nat, ws: seq<Window>, n: nat, k: nat)
    requires Running(src, seed, d, f, maxWindow, ws) && NothingStrands(src, seed, d, f, ws)
    requires n <= |ws| && k < |src.issues|
    ensures var (after, x) := (AfterWindows(seed, d, f, ws, n), IdentOf(src.issues[k]));
      seed <= src.issues[k].updatedAt < after.file ==> x in after.issues || Awaited(src, after.file, x)
  {
    var (after, x) := (AfterWindows(seed, d, f, ws, n), IdentOf(src.issues[k]));
    SettleAllExact(d, ws[..n], CeilingOf(f, ResumeAt(d, seed)), x, 0);
    var i := WriterOf(seed, d, f, ws, n);
    if seed <= src.issues[k].updatedAt < after.file {
      if after.file != d.file {
        hide Running, NothingStrands, SettleAll, CeilingOf, Awaited, Written, SettledBy, Newest, CursorFor, ResumeAt;
        IssueIsKept(src, seed, d, f, maxWindow, ws, n, i, k);
      } else {
        hide SettleAll, CeilingOf, Awaited, SettledBy, NothingStrands, Listed, Walked, RunWindows;
      }
    }
  }

  lemma PullAfter(src: Source, seed: Stamp, d: Durable, f: Fetch, maxWindow: nat, ws: seq<Window>, n: nat, t: nat)
    requires Running(src, seed, d, f, maxWindow, ws) && NothingStrands(src, seed, d, f, ws)
    requires n <= |ws| && t < |src.pulls|
    ensures var after := AfterWindows(seed, d, f, ws, n);
      seed <= src.pulls[t].updatedAt < after.file ==> src.pulls[t].number in after.pulls
  {
    var after := AfterWindows(seed, d, f, ws, n);
    SettleAllExact(d, ws[..n], CeilingOf(f, ResumeAt(d, seed)), Ident(None, 0), src.pulls[t].number);
    var i := WriterOf(seed, d, f, ws, n);
    if seed <= src.pulls[t].updatedAt < after.file {
      if after.file != d.file {
        hide Running, NothingStrands, SettleAll, CeilingOf, Written, PullSettledBy, Newest, CursorFor, ResumeAt;
        PullIsKept(src, seed, d, f, maxWindow, ws, n, i, t);
      } else {
        hide SettleAll, CeilingOf, PullSettledBy, NothingStrands, Listed, Walked, RunWindows;
      }
    }
  }

  lemma PrefixIsSafe(src: Source, seed: Stamp, d: Durable, f: Fetch, maxWindow: nat, ws: seq<Window>, n: nat)
    requires Running(src, seed, d, f, maxWindow, ws) && NothingStrands(src, seed, d, f, ws) && n <= |ws|
    ensures Safe(src, seed, AfterWindows(seed, d, f, ws, n))
  {
    hide Running, NothingStrands, AfterWindows, Awaited, Idents, ResumeAt;
    var after := AfterWindows(seed, d, f, ws, n);
    forall k | 0 <= k < |src.issues|
      ensures seed <= src.issues[k].updatedAt < after.file ==>
        IdentOf(src.issues[k]) in after.issues || Awaited(src, after.file, IdentOf(src.issues[k]))
    {
      IssueAfter(src, seed, d, f, maxWindow, ws, n, k);
    }
    forall t | 0 <= t < |src.pulls|
      ensures seed <= src.pulls[t].updatedAt < after.file ==> src.pulls[t].number in after.pulls
    {
      PullAfter(src, seed, d, f, maxWindow, ws, n, t);
    }
  }

  // ----- something stranded, something lost

  lemma StrandedPullIsLost(src: Source, seed: Stamp, d: Durable, f: Fetch, maxWindow: nat, ws: seq<Window>, i: nat,
      j: nat, k: nat)
    requires Running(src, seed, d, f, maxWindow, ws) && PullStrands(seed, d, f, ws, i, j, k)
    ensures !Safe(src, seed, AfterWindows(seed, d, f, ws, i + 1))
  {
    FileAfter(seed, d, f, ws, i);
    SettleAllExact(d, ws[..i + 1], CeilingOf(f, ResumeAt(d, seed)), Ident(None, 0), ws[j].pulls[k].number);
    hide RunWindows, CeilingOf, SettleAll, Written, Awaited, SettledBy, PullSettledBy, Listed, Walked;
    var t := WindowPullIsSource(src, ResumeAt(d, seed), f, maxWindow, ws, j, k);
    assert src.pulls[t].number == ws[j].pulls[k].number && src.pulls[t].updatedAt == ws[j].pulls[k].updatedAt;
  }

  lemma StrandedIssueIsLost(src: Source, seed: Stamp, d: Durable, f: Fetch, ws: seq<Window>, i: nat, j: nat, k: nat)
    requires IssueStrands(src, seed, d, f, ws, i, j, k)
    ensures !Safe(src, seed, AfterWindows(seed, d, f, ws, i + 1))
  {
    FileAfter(seed, d, f, ws, i);
    SettleAllExact(d, ws[..i + 1], CeilingOf(f, ResumeAt(d, seed)), IdentOf(src.issues[k]), 0);
    hide CeilingOf, SettleAll, Written, Awaited, SettledBy, PullSettledBy, IdentSet;
  }

  /** A run may stop after any window if and only if none of its windows writes a cursor past an unsettled
      pull of a later window, or past an unsettled issue of a later window that no pull ahead will bring. */
  lemma StopsAreSafeIff(src: Source, seed: Stamp, d: Durable, f: Fetch, maxWindow: nat, ws: seq<Window>)
    requires Running(src, seed, d, f, maxWindow, ws)
    ensures (forall n :: 0 <= n <= |ws| ==> Safe(src, seed, AfterWindows(seed, d, f, ws, n))) <==>
      NothingStrands(src, seed, d, f, ws)
  {
    hide Running, Safe, AfterWindows, PullStrands, IssueStrands;
    if NothingStrands(src, seed, d, f, ws) {
      forall n | 0 <= n <= |ws| ensures Safe(src, seed, AfterWindows(seed, d, f, ws, n)) {
        PrefixIsSafe(src, seed, d, f, maxWindow, ws, n);
      }
    } else if i: nat, j: nat, k: nat :| PullStrands(seed, d, f, ws, i, j, k) {
      StrandedPullIsLost(src, seed, d, f, maxWindow, ws, i, j, k);
      StrandsAt(seed, d, f, ws, i, j, k);
    } else {
      var i: nat, j: nat, k: nat :| IssueStrands(src, seed, d, f, ws, i, j, k);
      StrandedIssueIsLost(src, seed, d, f, ws, i, j, k);
      IssueStrandsAt(src, seed, d, f, ws, i, j, k);
    }
  }

  lemma StrandsAt(seed: Stamp, d: Durable, f: Fetch, ws: seq<Window>, i: nat, j: nat, k: nat)
    requires PullStrands(seed, d, f, ws, i, j, k)
    ensures i + 1 <= |ws|
  {
  }

  lemma IssueStrandsAt(src: Source, seed: Stamp, d: Durable, f: Fetch, ws: seq<Window>, i: nat, j: nat, k: nat)
    requires IssueStrands(src, seed, d, f, ws, i, j, k)
    ensures i + 1 <= |ws|
  {
  }

  // ----- pulls at least as new as what they close

  function PartsOf(src: Source, f: Fetch, maxWindow: nat): seq<seq<Group>> {
    Cut(Ordered(f.issues, Prepared(src, f)), maxWindow)
  }

  lemma WindowPart(src: Source, f: Fetch, maxWindow: nat, i: nat)
    requires RunWindows(src, f, maxWindow).Ok? && i < |RunWindows(src, f, maxWindow).value|
    ensures |PartsOf(src, f, maxWindow)| == |RunWindows(src, f, maxWindow).value|
    ensures RunWindows(src, f, maxWindow).value[i] == WindowOf(PartsOf(src, f, maxWindow)[i])
  {
    hide Ordered, Cut, WindowOf, Prepared;
  }

  lemma PullGroupKey(src: Source, p: Pull)
    requires RefsBefore(p)
    ensures PullGroup(FoldPull(src.owner, src.repo, p)).key == p.updatedAt
  {
    hide StableSort, Fold;
    var q := FoldPull(src.owner, src.repo, p);
    assert forall i :: 0 <= i < |q.closing| ==> q.closing[i].updatedAt == p.closing[i].updatedAt;
  }

  /** A fetched pull older than a settled window's cursor was settled by then, with all it closes. */
  lemma OlderPullIsSettled(src: Source, f: Fetch, maxWindow: nat, j: nat, p: Pull) returns (m: nat)
    requires RunWindows(src, f, maxWindow).Ok? && j < |RunWindows(src, f, maxWindow).value|
    requires p in f.pulls && RefsBefore(p) && p.updatedAt < OrEmpty(CursorFor(RunWindows(src, f, maxWindow).value[j]))
    ensures m <= j && p.number in NumberSet(RunWindows(src, f, maxWindow).value[m].pulls)
    ensures forall x :: x in Refs(src, p) ==> x in IdentSet(RunWindows(src, f, maxWindow).value[m].issues)
  {
    var (pulls, q) := (Prepared(src, f), FoldPull(src.owner, src.repo, p));
    var k := PreparedAt(src, f, p);
    var g := PullGroups(pulls)[k];
    assert g == PullGroup(q);
    PullGroupKey(src, p);
    OrderedGroups(f.issues, pulls);
    assert g in Ordered(f.issues, pulls);
    WindowPart(src, f, maxWindow, j);
    hide Ordered, RunWindows, CursorFor, PullGroup, PullGroups, Prepared, Whole, WindowOf;
    m := OlderGroupsCameBefore(f.issues, pulls, maxWindow, j, g);
    WindowPart(src, f, maxWindow, m);
    GroupSettlesPull(PartsOf(src, f, maxWindow)[m], g, q);
  }

  lemma GroupSettlesPull(part: seq<Group>, g: Group, q: Pull)
    requires g in part && g == PullGroup(q)
    ensures q.number in NumberSet(WindowOf(part).pulls)
    ensures forall x :: x in Idents(q.closing) ==> x in IdentSet(WindowOf(part).issues)
  {
    var k :| 0 <= k < |part| && part[k] == g;
    PartHolds(part, k);
    NumberMember(WindowOf(part).pulls, q);
    SameMembers(g.issues, q.closing);
    forall x | x in Idents(q.closing) ensures x in IdentSet(WindowOf(part).issues) {
      var i :| 0 <= i < |q.closing| && Idents(q.closing)[i] == x;
      assert q.closing[i] in g.issues;
      RowIsListed(part, k, q.closing[i]);
    }
  }

  /** A fetched standalone issue older than a settled window's cursor was settled by then. */
  lemma OlderIssueIsSettled(src: Source, f: Fetch, maxWindow: nat, j: nat, x: Issue) returns (m: nat)
    requires RunWindows(src, f, maxWindow).Ok? && j < |RunWindows(src, f, maxWindow).value|
    requires x in f.issues && IdentOf(x) !in Carried(Prepared(src, f))
    requires x.updatedAt < OrEmpty(CursorFor(RunWindows(src, f, maxWindow).value[j]))
    ensures m <= j && IdentOf(x) in IdentSet(RunWindows(src, f, maxWindow).value[m].issues)
  {
    var pulls := Prepared(src, f);
    var g := StandaloneGroup(x);
    var i :| 0 <= i < |f.issues| && f.issues[i] == x;
    StandaloneMember(f.issues, Carried(pulls), g);
    OrderedGroups(f.issues, pulls);
    WindowPart(src, f, maxWindow, j);
    hide Ordered, RunWindows, CursorFor, Prepared, Whole, WindowOf, Carried;
    m := OlderGroupsCameBefore(f.issues, pulls, maxWindow, j, g);
    WindowPart(src, f, maxWindow, m);
    var part := PartsOf(src, f, maxWindow)[m];
    var k :| 0 <= k < |part| && part[k] == g;
    assert g.issues[0] == x;
    RowIsListed(part, k, x);
  }

  lemma CarrierIsFetched(src: Source, resume: Stamp, f: Fetch, x: Ident) returns (k: nat)
    requires Walked(src, resume, f) && x in Carried(Prepared(src, f))
    ensures k < |src.pulls| && src.pulls[k] in f.pulls && x in Refs(src, src.pulls[k])
  {
    var pulls := Prepared(src, f);
    CarriedMember(pulls, x);
    var i :| 0 <= i < |pulls| && x in Idents(pulls[i].closing);
    k := |f.pulls| - 1 - i;
    assert src.pulls[k] == f.pulls[k] == Reversed(f.pulls)[i];
    hide Carried, FoldPull;
  }

  /** The cursor window `i` writes is within its limits. */
  lemma WrittenHolds(f: Fetch, resume: Stamp, w: Window)
    ensures var c := Written(f, resume, w);
      c != 0 ==>
        && c <= OrEmpty(CursorFor(w))
        && (f.issuesTruncated ==> c <= Newest(f.issues, 0) || c <= resume)
        && (f.pullsTruncated ==> c <= resume)
  {
    CeilingHolds(f, resume, OrEmpty(CursorFor(w)));
  }

  lemma OlderPullWasSettled(src: Source, seed: Stamp, d: Durable, f: Fetch, maxWindow: nat, ws: seq<Window>, i: nat,
      j: nat, k: nat)
    requires Running(src, seed, d, f, maxWindow, ws) && RefsNoNewer(src) && i < |ws| && j < |ws| && k < |ws[j].pulls|
    requires ws[j].pulls[k].updatedAt < Written(f, ResumeAt(d, seed), ws[i])
    ensures PullSettledBy(ws[..i + 1], ws[j].pulls[k].number)
  {
    var t := WindowPullIsSource(src, ResumeAt(d, seed), f, maxWindow, ws, j, k);
    WrittenHolds(f, ResumeAt(d, seed), ws[i]);
    hide CursorFor, Written, Listed, Safe, Walked;
    var m := OlderPullIsSettled(src, f, maxWindow, i, src.pulls[t]);
    hide RunWindows;
    assert ws[..i + 1][m] == ws[m];
  }

  lemma PullSettlesIssue(src: Source, f: Fetch, maxWindow: nat, ws: seq<Window>, i: nat, c: Stamp, t: nat, x: Ident)
    requires RunWindows(src, f, maxWindow) == Ok(ws) && RefsNoNewer(src) && i < |ws| && c <= OrEmpty(CursorFor(ws[i]))
    requires t < |src.pulls| && src.pulls[t] in f.pulls && x in Refs(src, src.pulls[t])
    ensures Awaited(src, c, x) || SettledBy(ws[..i + 1], x)
  {
    hide CursorFor;
    if src.pulls[t].updatedAt < c {
      var m := OlderPullIsSettled(src, f, maxWindow, i, src.pulls[t]);
      hide RunWindows;
      assert ws[..i + 1][m] == ws[m];
    }
  }

  lemma OlderIssueWasKept(src: Source, seed: Stamp, d: Durable, f: Fetch, maxWindow: nat, ws: seq<Window>, i: nat,
      k: nat)
    requires Running(src, seed, d, f, maxWindow, ws) && RefsNoNewer(src) && i < |ws| && k < |src.issues|
    requires seed <= src.issues[k].updatedAt < Written(f, ResumeAt(d, seed), ws[i])
    ensures var x := IdentOf(src.issues[k]);
      x in d.issues || SettledBy(ws[..i + 1], x) || Awaited(src, Written(f, ResumeAt(d, seed), ws[i]), x)
  {
    var (x, c, resume) := (IdentOf(src.issues[k]), Written(f, ResumeAt(d, seed), ws[i]), ResumeAt(d, seed));
    WrittenHolds(f, resume, ws[i]);
    hide RunWindows, CursorFor, Newest, Carried, Prepared, Written;
    if src.issues[k].updatedAt >= resume {
      IssueIsFetched(src, resume, f, c, k);
      if x in Carried(Prepared(src, f)) {
        var t := CarrierIsFetched(src, resume, f, x);
        PullSettlesIssue(src, f, maxWindow, ws, i, c, t, x);
      } else {
        var m := OlderIssueIsSettled(src, f, maxWindow, i, src.issues[k]);
        assert ws[..i + 1][m] == ws[m];
      }
    } else if x !in d.issues {
      var t :| 0 <= t < |src.pulls| && src.pulls[t].updatedAt >= d.file && x in Refs(src, src.pulls[t]);
      if src.pulls[t].updatedAt < c {
        PullIsFetched(src, resume, f, c, t);
        PullSettlesIssue(src, f, maxWindow, ws, i, c, t, x);
      }
    }
  }

  /** One way to be sure: no pull closes an issue updated after it. */
  lemma NoNewerRefsStrandNothing(src: Source, seed: Stamp, d: Durable, f: Fetch, maxWindow: nat, ws: seq<Window>)
    requires Running(src, seed, d, f, maxWindow, ws) && RefsNoNewer(src)
    ensures NothingStrands(src, seed, d, f, ws)
  {
    hide Running, RefsNoNewer, Written, Awaited, SettledBy, PullSettledBy;
    forall i: nat, j: nat, k: nat ensures !PullStrands(seed, d, f, ws, i, j, k) {
      if i < j < |ws| && k < |ws[j].pulls| && ws[j].pulls[k].updatedAt < Written(f, ResumeAt(d, seed), ws[i]) {
        OlderPullWasSettled(src, seed, d, f, maxWindow, ws, i, j, k);
      }
    }
    forall i: nat, j: nat, k: nat ensures !IssueStrands(src, seed, d, f, ws, i, j, k) {
      if i < j < |ws| && k < |src.issues| && seed <= src.issues[k].updatedAt < Written(f, ResumeAt(d, seed), ws[i]) {
        OlderIssueWasKept(src, seed, d, f, maxWindow, ws, i, k);
      }
    }
  }

  // ----- a reference newer than its pull

  lemma LoneReferenceWindows(src: Source, f: Fetch, issue: Issue, ref: Issue, pull: Pull)
    requires f.issues == [issue, ref] && f.pulls == [pull] && pull.closing == [ref] && ref.repo == None
    requires pull.updatedAt < issue.updatedAt <= ref.updatedAt && IdentOf(issue) != IdentOf(ref)
    ensures RunWindows(src, f, 2) == Ok([Window([issue], []), Window([ref], [pull])])
  {
    assert FoldPull(src.owner, src.repo, pull).closing == [ref];
    assert Prepared(src, f) == [pull];
    LoneReferenceCut(issue, ref, pull);
    FittingPull([issue, ref], pull, 2, [StandaloneGroup(issue)], [PullGroup(pull)]);
    hide Prepared, Cut, Ordered, Windows;
  }

  lemma LoneReferenceCut(issue: Issue, ref: Issue, pull: Pull)
    requires pull.closing == [ref] && pull.updatedAt < issue.updatedAt <= ref.updatedAt
      && IdentOf(issue) != IdentOf(ref)
    ensures Cut(Ordered([issue, ref], [pull]), 2) == [[StandaloneGroup(issue)], [PullGroup(pull)]]
    ensures WindowOf([StandaloneGroup(issue)]) == Window([issue], [])
      && WindowOf([PullGroup(pull)]) == Window([ref], [pull])
  {
    hide Carried, StableSort, Cut, PullGroup, WindowOf, Newest, StandaloneGroups;
    LoneCarried(ref, pull);
    LoneStandalone(issue, {IdentOf(ref)});
    OthersStandalone(issue, ref);
    LoneGroup(ref, pull);
    TwoInOrder(StandaloneGroup(issue), PullGroup(pull), 2);
    assert PullGroups([pull]) == [PullGroup(pull)];
  }

  lemma OthersStandalone(issue: Issue, ref: Issue)
    requires IdentOf(issue) != IdentOf(ref)
    ensures StandaloneGroups([issue, ref], {IdentOf(ref)}) == [StandaloneGroup(issue)]
  {
    assert [issue, ref][..1] == [issue] && [issue][..0] == [];
    assert StandaloneGroups([issue], {IdentOf(ref)}) == [StandaloneGroup(issue)];
  }

  lemma LoneCarried(ref: Issue, pull: Pull)
    requires pull.closing == [ref]
    ensures Carried([pull]) == {IdentOf(ref)}
  {
    assert Carried([]) == {} && [pull][..0] == [];
    assert Idents([ref]) == [IdentOf(ref)];
  }

  lemma LoneGroup(ref: Issue, pull: Pull)
    requires pull.closing == [ref] && pull.updatedAt < ref.updatedAt
    ensures PullGroup(pull) == Group(ref.updatedAt, [ref], Some(pull))
      && WindowOf([PullGroup(pull)]) == Window([ref], [pull])
  {
    assert [ref][1..] == [] && [ref][..0] == [];
    assert StableSort([ref], OlderFirst) == [ref];
    LoneWindow(PullGroup(pull));
    assert Deduped([]) == [];
  }

  /** A run that stops can strand a row: a pull whose closing issue was updated later waits for that issue's
      window, and the window before it writes a cursor past the pull. */
  lemma NewerReferenceStrandsPull(src: Source, issue: Issue, ref: Issue, pull: Pull)
    requires src.issues == [issue, ref] && src.pulls == [pull] && pull.closing == [ref] && ref.repo == None
    requires 0 < pull.updatedAt < issue.updatedAt <= ref.updatedAt && IdentOf(issue) != IdentOf(ref)
    ensures var (f, d, ws) := (Fetch(src.issues, false, src.pulls, false), Durable(0, {}, {}),
      [Window([issue], []), Window([ref], [pull])]);
      && Running(src, 0, d, f, 2, ws) && PullStrands(0, d, f, ws, 0, 1, 0)
      && !Safe(src, 0, AfterWindows(0, d, f, ws, 1))
  {
    var (f, d) := (Fetch(src.issues, false, src.pulls, false), Durable(0, {}, {}));
    var ws := [Window([issue], []), Window([ref], [pull])];
    LoneSourceWalked(src, f, issue, ref, pull);
    hide RunWindows, Listed, Walked, Safe, PullStrands, AfterWindows;
    LoneReferenceWindows(src, f, issue, ref, pull);
    NothingYet(src, 0);
    WaitingPullStrands(f, issue, ref, pull);
    StrandedPullIsLost(src, 0, d, f, 2, ws, 0, 1, 0);
  }

  lemma LoneSourceWalked(src: Source, f: Fetch, issue: Issue, ref: Issue, pull: Pull)
    requires src.issues == [issue, ref] && src.pulls == [pull] && issue.updatedAt <= ref.updatedAt
    requires f == Fetch(src.issues, false, src.pulls, false)
    ensures Listed(src) && Walked(src, 0, f)
  {
    SinceAll(src.issues, 0);
    hide Since;
  }

  lemma WaitingPullStrands(f: Fetch, issue: Issue, ref: Issue, pull: Pull)
    requires !f.issuesTruncated && !f.pullsTruncated && pull.updatedAt < issue.updatedAt
    ensures PullStrands(0, Durable(0, {}, {}), f, [Window([issue], []), Window([ref], [pull])], 0, 1, 0)
  {
    var ws := [Window([issue], []), Window([ref], [pull])];
    IssueWritten(f, 0, issue);
    hide Written;
    assert ws[..1] == [Window([issue], [])];
  }

  lemma NothingYet(src: Source, seed: Stamp)
    ensures Safe(src, seed, Durable(0, {}, {}))
  {
  }

  lemma IssueWritten(f: Fetch, resume: Stamp, issue: Issue)
    requires !f.issuesTruncated && !f.pullsTruncated
    ensures Written(f, resume, Window([issue], [])) == issue.updatedAt
  {
    assert [issue][..0] == [];
    assert CursorFor(Window([issue], [])) == Some(issue.updatedAt);
  }

  // ----- an issue left behind by itself

  /** A pull older than the run closes an early and a late issue, with another issue between them. */
  ghost predicate Straddled(src: Source, seed: Stamp, early: Issue, lone: Issue, late: Issue, pull: Pull) {
    && src.issues == [early, lone, late] && src.pulls == [pull] && pull.closing == [early, late]
    && early.repo == None && late.repo == None
    && pull.updatedAt < seed <= early.updatedAt < lone.updatedAt <= late.updatedAt
    && IdentOf(early) != IdentOf(lone) && IdentOf(lone) != IdentOf(late) && IdentOf(early) != IdentOf(late)
  }

  lemma PairGroup(early: Issue, late: Issue, pull: Pull)
    requires pull.closing == [early, late] && pull.updatedAt < early.updatedAt < late.updatedAt
      && IdentOf(early) != IdentOf(late)
    ensures PullGroup(pull) == Group(late.updatedAt, [early, late], Some(pull))
      && WindowOf([PullGroup(pull)]) == Window([early, late], [pull])
  {
    assert [early, late][1..] == [late] && [late][1..] == [] && [early, late][..1] == [early] && [early][..0] == [];
    assert StableSort([late], OlderFirst) == [late];
    assert StableSort([early, late], OlderFirst) == [early, late];
    LoneWindow(PullGroup(pull));
    assert Deduped([]) == [] && Deduped([early]) == [early];
  }

  lemma PairCarried(early: Issue, late: Issue, pull: Pull, x: Ident)
    requires pull.closing == [early, late]
    ensures x in Carried([pull]) <==> x == IdentOf(early) || x == IdentOf(late)
  {
    CarriedMember([pull], x);
    assert Idents([early, late]) == [IdentOf(early), IdentOf(late)];
    hide Carried;
    assert [pull][0].closing == [early, late];
  }

  lemma {:induction false} BetweenStandalone(early: Issue, lone: Issue, late: Issue, carried: set<Ident>)
    requires IdentOf(early) in carried && IdentOf(late) in carried && IdentOf(lone) !in carried
    ensures StandaloneGroups([early, lone, late], carried) == [StandaloneGroup(lone)]
  {
    assert [early, lone, late][..2] == [early, lone] && [early, lone][..1] == [early] && [early][..0] == [];
    assert StandaloneGroups([early], carried) == [];
    assert StandaloneGroups([early, lone], carried) == [StandaloneGroup(lone)];
  }

  lemma StraddledCut(early: Issue, lone: Issue, late: Issue, pull: Pull)
    requires pull.closing == [early, late]
    requires pull.updatedAt < early.updatedAt < lone.updatedAt <= late.updatedAt
    requires IdentOf(early) != IdentOf(lone) && IdentOf(lone) != IdentOf(late) && IdentOf(early) != IdentOf(late)
    ensures Cut(Ordered([early, lone, late], [pull]), 3) == [[StandaloneGroup(lone)], [PullGroup(pull)]]
    ensures WindowOf([StandaloneGroup(lone)]) == Window([lone], [])
      && WindowOf([PullGroup(pull)]) == Window([early, late], [pull])
  {
    hide Carried, StableSort, Cut, PullGroup, WindowOf, Newest, StandaloneGroups;
    PairCarried(early, late, pull, IdentOf(early));
    PairCarried(early, late, pull, IdentOf(late));
    PairCarried(early, late, pull, IdentOf(lone));
    LoneStandalone(lone, Carried([pull]));
    BetweenStandalone(early, lone, late, Carried([pull]));
    PairGroup(early, late, pull);
    TwoInOrder(StandaloneGroup(lone), PullGroup(pull), 3);
    assert PullGroups([pull]) == [PullGroup(pull)];
  }

  lemma StraddledWindows(src: Source, seed: Stamp, f: Fetch, early: Issue, lone: Issue, late: Issue, pull: Pull)
    requires Straddled(src, seed, early, lone, late, pull) && f == Fetch(src.issues, false, src.pulls, false)
    ensures RunWindows(src, f, 3) == Ok([Window([lone], []), Window([early, late], [pull])])
  {
    assert FoldPull(src.owner, src.repo, pull).closing == [early, late];
    assert Prepared(src, f) == [pull];
    StraddledCut(early, lone, late, pull);
    FittingPull([early, lone, late], pull, 3, [StandaloneGroup(lone)], [PullGroup(pull)]);
    hide Prepared, Cut, Ordered, Windows;
  }

  /** A run that stops can strand an issue: it waits for a later window with its pull, the window before it writes
      past it, and the pull is too old to be fetched again. */
  lemma StraddlingPullStrandsIssue(src: Source, seed: Stamp, early: Issue, lone: Issue, late: Issue, pull: Pull)
    requires Straddled(src, seed, early, lone, late, pull)
    ensures var (f, d, ws) := (Fetch(src.issues, false, src.pulls, false), Durable(0, {}, {}),
      [Window([lone], []), Window([early, late], [pull])]);
      && Running(src, seed, d, f, 3, ws) && IssueStrands(src, seed, d, f, ws, 0, 1, 0)
      && !Safe(src, seed, AfterWindows(seed, d, f, ws, 1))
  {
    hide RunWindows, Safe, IssueStrands, AfterWindows, Listed, Walked, Straddled;
    var (f, d) := (Fetch(src.issues, false, src.pulls, false), Durable(0, {}, {}));
    var ws := [Window([lone], []), Window([early, late], [pull])];
    StraddledWalked(src, seed, f, early, lone, late, pull);
    StraddledWindows(src, seed, f, early, lone, late, pull);
    NothingYet(src, seed);
    EarlyIssueStrands(src, seed, f, early, lone, late, pull);
    StrandedIssueIsLost(src, seed, d, f, ws, 0, 1, 0);
  }

  lemma StraddledWalked(src: Source, seed: Stamp, f: Fetch, early: Issue, lone: Issue, late: Issue, pull: Pull)
    requires Straddled(src, seed, early, lone, late, pull) && f == Fetch(src.issues, false, src.pulls, false)
    ensures Listed(src) && Walked(src, seed, f)
  {
    SinceAll(src.issues, seed);
    hide Since;
  }

  lemma EarlyIssueStrands(src: Source, seed: Stamp, f: Fetch, early: Issue, lone: Issue, late: Issue, pull: Pull)
    requires Straddled(src, seed, early, lone, late, pull) && !f.issuesTruncated && !f.pullsTruncated
    ensures IssueStrands(src, seed, Durable(0, {}, {}), f, [Window([lone], []), Window([early, late], [pull])], 0, 1, 0)
  {
    var ws := [Window([lone], []), Window([early, late], [pull])];
    IssueWritten(f, seed, lone);
    hide Written;
    assert ws[..1] == [Window([lone], [])];
    assert Idents([lone]) == [IdentOf(lone)];
    assert Idents([early, late])[0] == IdentOf(early);
  }

  lemma {:induction false} SinceAll(issues: seq<Issue>, resume: Stamp)
    requires forall i :: 0 <= i < |issues| ==> resume <= issues[i].updatedAt
    ensures Since(issues, resume) == issues
  {
    if issues != [] { SinceAll(issues[1..], resume); }
  }

  // ----- when the cursor file moves back

  lemma WrittenInOrder(f: Fetch, resume: Stamp, a: Window, b: Window)
    requires Follows(a, b)
    ensures Written(f, resume, a) <= Written(f, resume, b)
  {
    hide CursorFor, CeilingOf;
  }

  lemma {:induction false} FileStays(seed: Stamp, d: Durable, f: Fetch, ws: seq<Window>, n: nat)
    requires n <= |ws| && forall i, j :: 0 <= i < j < |ws| ==> Follows(ws[i], ws[j])
    requires forall i :: 0 <= i < |ws| ==>
      Written(f, ResumeAt(d, seed), ws[i]) == 0 || d.file <= Written(f, ResumeAt(d, seed), ws[i])
    ensures d.file <= AfterWindows(seed, d, f, ws, n).file
    ensures n > 0 ==> AfterWindows(seed, d, f, ws, n - 1).file <= AfterWindows(seed, d, f, ws, n).file
    ensures forall j :: n <= j < |ws| && Written(f, ResumeAt(d, seed), ws[j]) != 0 ==>
      AfterWindows(seed, d, f, ws, n).file <= Written(f, ResumeAt(d, seed), ws[j])
  {
    if n > 0 {
      FileStays(seed, d, f, ws, n - 1);
      assert ws[..n][..n - 1] == ws[..n - 1];
      var resume := ResumeAt(d, seed);
      forall j | n <= j < |ws| ensures Written(f, resume, ws[n - 1]) <= Written(f, resume, ws[j]) {
        WrittenInOrder(f, resume, ws[n - 1], ws[j]);
      }
      AfterStep(seed, d, f, ws, n);
      hide CursorFor, CeilingOf, Effective, SettleAll, Follows, Written, AfterWindows;
    }
  }

  lemma AfterStep(seed: Stamp, d: Durable, f: Fetch, ws: seq<Window>, n: nat)
    requires 0 < n <= |ws|
    ensures var c := Written(f, ResumeAt(d, seed), ws[n - 1]);
      AfterWindows(seed, d, f, ws, n).file == if c != 0 then c else AfterWindows(seed, d, f, ws, n - 1).file
  {
    assert ws[..n][..n - 1] == ws[..n - 1];
    hide CursorFor, CeilingOf, Effective, IdentSet, NumberSet;
  }

  /** While a run settles its windows the cursor file never moves back, if and only if no window writes a
      cursor behind the file the run started from. */
  lemma FileNeverMovesBackIff(src: Source, seed: Stamp, d: Durable, f: Fetch, maxWindow: nat, ws: seq<Window>)
    requires RunWindows(src, f, maxWindow) == Ok(ws) && AllShown(Prepared(src, f))
    ensures (forall m, n :: 0 <= m <= n <= |ws| ==>
      AfterWindows(seed, d, f, ws, m).file <= AfterWindows(seed, d, f, ws, n).file)
      <==> forall i :: 0 <= i < |ws| ==>
        Written(f, ResumeAt(d, seed), ws[i]) == 0 || d.file <= Written(f, ResumeAt(d, seed), ws[i])
  {
    var resume := ResumeAt(d, seed);
    CursorsNeverRegress(f.issues, Prepared(src, f), maxWindow);
    assert forall i, j :: 0 <= i < j < |ws| ==> Follows(ws[i], ws[j]);
    hide RunWindows, Windows, Prepared, AllShown, Written, Follows;
    if forall i :: 0 <= i < |ws| ==> Written(f, resume, ws[i]) == 0 || d.file <= Written(f, resume, ws[i]) {
      forall m, n | 0 <= m <= n <= |ws|
        ensures AfterWindows(seed, d, f, ws, m).file <= AfterWindows(seed, d, f, ws, n).file {
        hide AfterWindows;
        FileGrows(seed, d, f, ws, m, n);
      }
    } else {
      var i :| 0 <= i < |ws| && Written(f, resume, ws[i]) != 0 && Written(f, resume, ws[i]) < d.file;
      FileAfter(seed, d, f, ws, i);
      assert AfterWindows(seed, d, f, ws, 0).file == d.file by { assert ws[..0] == []; }
      hide AfterWindows;
      assert AfterWindows(seed, d, f, ws, 0).file > AfterWindows(seed, d, f, ws, i + 1).file;
    }
  }

  lemma {:induction false} FileGrows(seed: Stamp, d: Durable, f: Fetch, ws: seq<Window>, m: nat, n: nat)
    requires m <= n <= |ws| && forall i, j :: 0 <= i < j < |ws| ==> Follows(ws[i], ws[j])
    requires forall i :: 0 <= i < |ws| ==>
      Written(f, ResumeAt(d, seed), ws[i]) == 0 || d.file <= Written(f, ResumeAt(d, seed), ws[i])
    ensures AfterWindows(seed, d, f, ws, m).file <= AfterWindows(seed, d, f, ws, n).file
    decreases n
  {
    hide AfterWindows, Written, Follows;
    if m < n {
      FileGrows(seed, d, f, ws, m, n - 1);
      FileStays(seed, d, f, ws, n);
    }
  }

  /** It can: a page of pulls is kept whole, so the oldest window may hold only a pull from before the file. */
  lemma KeptPageMovesFileBack(src: Source, d: Durable, older: Pull, newer: Pull)
    requires src.issues == [] && src.pulls == [newer, older] && older.closing == [] && newer.closing == []
    requires 0 < older.updatedAt < d.file <= newer.updatedAt
    ensures var (f, ws) := (Fetch([], false, src.pulls, false), [Window([], [older]), Window([], [newer])]);
      && Listed(src) && Walked(src, d.file, f) && RunWindows(src, f, 1) == Ok(ws)
      && AfterWindows(0, d, f, ws, 1).file == older.updatedAt < d.file
  {
    var (f, ws) := (Fetch([], false, src.pulls, false), [Window([], [older]), Window([], [newer])]);
    PairWalked(src, d.file, f, older, newer);
    BarePrepared(src, f, older, newer);
    hide Listed, Walked, Windows, Written, Prepared, AfterWindows;
    LonePulls(older, newer);
    PullWritten(f, d.file, older);
    FileAfter(0, d, f, ws, 0);
  }

  lemma PairWalked(src: Source, resume: Stamp, f: Fetch, older: Pull, newer: Pull)
    requires src.issues == [] && src.pulls == [newer, older] && older.updatedAt <= newer.updatedAt
    requires f == Fetch([], false, src.pulls, false)
    ensures Listed(src) && Walked(src, resume, f)
  {
    assert Since([], resume) == [];
  }

  lemma BarePrepared(src: Source, f: Fetch, older: Pull, newer: Pull)
    requires f.pulls == [newer, older] && older.closing == [] && newer.closing == []
    ensures Prepared(src, f) == [older, newer]
  {
    assert FoldPull(src.owner, src.repo, older) == older && FoldPull(src.owner, src.repo, newer) == newer;
  }

  lemma PullWritten(f: Fetch, resume: Stamp, p: Pull)
    requires !f.issuesTruncated && !f.pullsTruncated
    ensures Written(f, resume, Window([], [p])) == p.updatedAt
  {
    assert [p][..0] == [];
    assert CursorFor(Window([], [p])) == Some(p.updatedAt);
  }

  lemma BarePullGroup(p: Pull)
    requires p.closing == []
    ensures PullGroup(p) == Group(p.updatedAt, [], Some(p)) && WindowOf([PullGroup(p)]) == Window([], [p])
  {
    LoneWindow(PullGroup(p));
  }

  lemma PullsAlone(a: Pull, b: Pull)
    ensures Ordered([], [a, b]) == StableSort([PullGroup(a)] + [PullGroup(b)], KeyLe)
  {
    hide StableSort, PullGroup, Carried;
    assert StandaloneGroups([], Carried([a, b])) == [];
    assert [] + PullGroups([a, b]) == [PullGroup(a)] + [PullGroup(b)];
  }

  lemma LonePulls(older: Pull, newer: Pull)
    requires older.closing == [] && newer.closing == [] && older.updatedAt <= newer.updatedAt
    ensures Windows([], [older, newer], 1) == Ok([Window([], [older]), Window([], [newer])])
  {
    hide PullGroup, StableSort, Cut, WindowOf, Windows, Ordered;
    var (a, b) := (PullGroup(older), PullGroup(newer));
    BarePullGroup(older);
    BarePullGroup(newer);
    PullsAlone(older, newer);
    TwoInOrder(a, b, 1);
    FittingWindows([], [older, newer], 1, [a], [b]);
  }
}
