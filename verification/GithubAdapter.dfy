/** Many runs over one source, and the run itself: walk, chunk, submit, write the cursor. */
module GithubAdapter {
  import opened Common
  import opened GithubWindows
  import opened GithubUnits
  import opened GithubChunking
  import opened GithubRuns
  import opened GithubStops
  import opened GithubChecks

  // ----- many runs

  /** One run: what it fetched, under which window bound, and how many windows settled before it ended. */
  datatype RunRecord = RunRecord(fetch: Fetch, maxWindow: nat, settled: nat)

  /** A run whose windows could not be formed stops before submitting any. */
  function AfterRun(src: Source, seed: Stamp, d: Durable, r: RunRecord): Durable {
    var ws := RunWindows(src, r.fetch, r.maxWindow);
    if ws.Ok? && r.settled <= |ws.value| then AfterWindows(seed, d, r.fetch, ws.value, r.settled) else d
  }

  function AfterRuns(src: Source, seed: Stamp, d: Durable, rs: seq<RunRecord>): Durable {
    if rs == [] then d else AfterRun(src, seed, AfterRuns(src, seed, d, rs[..|rs| - 1]), rs[|rs| - 1])
  }

  /** Each run walks the source from where the runs before it left the cursor. */
  ghost predicate Campaign(src: Source, seed: Stamp, d: Durable, rs: seq<RunRecord>) {
    rs != [] ==>
      && Campaign(src, seed, d, rs[..|rs| - 1])
      && Walked(src, ResumeAt(AfterRuns(src, seed, d, rs[..|rs| - 1]), seed), rs[|rs| - 1].fetch)
  }

  /** Every window of the run settled. */
  ghost predicate FullySettled(src: Source, r: RunRecord) {
    var ws := RunWindows(src, r.fetch, r.maxWindow);
    ws.Ok? ==> r.settled == |ws.value|
  }

  /** Over any number of fully settled runs, every issue and pull from the seed up to the saved cursor
      has been settled, however the walks were cut. */
  lemma {:induction false} SettledRunsLoseNothing(src: Source, seed: Stamp, rs: seq<RunRecord>)
    requires Listed(src) && Campaign(src, seed, Durable(0, {}, {}), rs)
    requires forall i :: 0 <= i < |rs| ==> FullySettled(src, rs[i])
    ensures NoLoss(src, seed, AfterRuns(src, seed, Durable(0, {}, {}), rs))
  {
    if rs != [] {
      var (before, r) := (rs[..|rs| - 1], rs[|rs| - 1]);
      SettledRunsLoseNothing(src, seed, before);
      var d := AfterRuns(src, seed, Durable(0, {}, {}), before);
      var ws := RunWindows(src, r.fetch, r.maxWindow);
      hide RunWindows, NoLoss, Walked, Listed, CeilingOf, SettleAll;
      if ws.Ok? {
        assert ws.value[..r.settled] == ws.value;
        SettledRunLosesNothing(src, seed, d, r.fetch, r.maxWindow);
      }
    }
  }

  /** Wherever its runs stop, every state the campaign passes through is safe. */
  ghost predicate SafeThroughout(src: Source, seed: Stamp, rs: seq<RunRecord>) {
    rs != [] ==>
      var (before, r) := (rs[..|rs| - 1], rs[|rs| - 1]);
      && SafeThroughout(src, seed, before)
      && SafeStops(src, seed, AfterRuns(src, seed, Durable(0, {}, {}), before), r)
  }

  ghost predicate SafeStops(src: Source, seed: Stamp, d: Durable, r: RunRecord) {
    var ws := RunWindows(src, r.fetch, r.maxWindow);
    ws.Ok? ==> forall n :: 0 <= n <= |ws.value| ==> Safe(src, seed, AfterWindows(seed, d, r.fetch, ws.value, n))
  }

  /** No run of the campaign has a window that writes past an unsettled row of a later one. */
  ghost predicate StrandFree(src: Source, seed: Stamp, rs: seq<RunRecord>) {
    rs != [] ==>
      var (before, r) := (rs[..|rs| - 1], rs[|rs| - 1]);
      && StrandFree(src, seed, before)
      && StrandsNothing(src, seed, AfterRuns(src, seed, Durable(0, {}, {}), before), r)
  }

  ghost predicate StrandsNothing(src: Source, seed: Stamp, d: Durable, r: RunRecord) {
    var ws := RunWindows(src, r.fetch, r.maxWindow);
    ws.Ok? ==> NothingStrands(src, seed, d, r.fetch, ws.value)
  }

  lemma OneRunSafeIff(src: Source, seed: Stamp, d: Durable, r: RunRecord)
    requires Listed(src) && Safe(src, seed, d) && Walked(src, ResumeAt(d, seed), r.fetch)
    ensures SafeStops(src, seed, d, r) <==> StrandsNothing(src, seed, d, r)
    ensures SafeStops(src, seed, d, r) ==> Safe(src, seed, AfterRun(src, seed, d, r))
  {
    var ws := RunWindows(src, r.fetch, r.maxWindow);
    hide RunWindows, Safe, Walked, Listed, AfterWindows, NothingStrands;
    if ws.Ok? { StopsAreSafeIff(src, seed, d, r.fetch, r.maxWindow, ws.value); }
  }

  /** Over any number of runs, each free to stop after any window: every state passed through has everything
      older than its cursor settled or awaited, if and only if no run strands a row. */
  lemma {:induction false} RunsAreSafeIff(src: Source, seed: Stamp, rs: seq<RunRecord>)
    requires Listed(src) && Campaign(src, seed, Durable(0, {}, {}), rs)
    ensures SafeThroughout(src, seed, rs) <==> StrandFree(src, seed, rs)
    ensures SafeThroughout(src, seed, rs) ==> Safe(src, seed, AfterRuns(src, seed, Durable(0, {}, {}), rs))
  {
    hide Safe, Walked, Listed, SafeStops, StrandsNothing, AfterRun;
    if rs == [] {
      NothingYet(src, seed);
    } else {
      var (before, r) := (rs[..|rs| - 1], rs[|rs| - 1]);
      RunsAreSafeIff(src, seed, before);
      if SafeThroughout(src, seed, before) {
        OneRunSafeIff(src, seed, AfterRuns(src, seed, Durable(0, {}, {}), before), r);
      }
    }
  }

  /** Every run of the campaign passes the check it can make before it submits. */
  ghost predicate CheckedThroughout(src: Source, seed: Stamp, rs: seq<RunRecord>) {
    rs != [] ==>
      var (before, r) := (rs[..|rs| - 1], rs[|rs| - 1]);
      && CheckedThroughout(src, seed, before)
      && Checked(src, seed, AfterRuns(src, seed, Durable(0, {}, {}), before).file, r)
  }

  ghost predicate Checked(src: Source, seed: Stamp, file: Stamp, r: RunRecord) {
    var ws := RunWindows(src, r.fetch, r.maxWindow);
    ws.Ok? ==> NothingWaits(src.owner, src.repo, r.fetch, seed, ResumeFrom(file, seed), ws.value)
  }

  lemma CheckedRunStrandsNothing(src: Source, seed: Stamp, d: Durable, r: RunRecord)
    requires Listed(src) && Identified(src) && Safe(src, seed, d) && Walked(src, ResumeAt(d, seed), r.fetch)
    requires Checked(src, seed, d.file, r)
    ensures StrandsNothing(src, seed, d, r)
  {
    var ws := RunWindows(src, r.fetch, r.maxWindow);
    hide RunWindows, Safe, Walked, Listed, Identified, NothingStrands, NothingWaits;
    if ws.Ok? { CheckedStopsAreSafe(src, seed, d, r.fetch, r.maxWindow, ws.value); }
  }

  /** Runs that each pass the check may stop anywhere. */
  lemma {:induction false} CheckedRunsAreSafe(src: Source, seed: Stamp, rs: seq<RunRecord>)
    requires Listed(src) && Identified(src) && Campaign(src, seed, Durable(0, {}, {}), rs)
    requires CheckedThroughout(src, seed, rs)
    ensures SafeThroughout(src, seed, rs)
  {
    hide Safe, Walked, Listed, Identified, SafeStops, StrandsNothing, AfterRuns, Checked;
    if rs != [] {
      var (before, r) := (rs[..|rs| - 1], rs[|rs| - 1]);
      CheckedRunsAreSafe(src, seed, before);
      RunsAreSafeIff(src, seed, before);
      var d := AfterRuns(src, seed, Durable(0, {}, {}), before);
      CheckedRunStrandsNothing(src, seed, d, r);
      OneRunSafeIff(src, seed, d, r);
    }
  }

  /** One way to be sure: no pull closes an issue updated after it. */
  lemma {:induction false} AnyRunsAreSafe(src: Source, seed: Stamp, rs: seq<RunRecord>)
    requires Listed(src) && RefsNoNewer(src) && Campaign(src, seed, Durable(0, {}, {}), rs)
    ensures SafeThroughout(src, seed, rs)
  {
    if rs != [] {
      var (before, r) := (rs[..|rs| - 1], rs[|rs| - 1]);
      AnyRunsAreSafe(src, seed, before);
      RunsAreSafeIff(src, seed, before);
      var (d, ws) := (AfterRuns(src, seed, Durable(0, {}, {}), before), RunWindows(src, r.fetch, r.maxWindow));
      hide RunWindows, Safe, Walked, Listed, RefsNoNewer, NothingStrands, SafeStops, AfterRuns;
      if ws.Ok? { NoNewerRefsStrandNothing(src, seed, d, r.fetch, r.maxWindow, ws.value); }
      OneRunSafeIff(src, seed, d, r);
    }
  }

  // ----- the run itself

  class Adapter {
    var cursorFile: Stamp
    var settledIssues: set<Ident>
    var settledPulls: set<nat>

    ghost function State(): Durable reads this { Durable(cursorFile, settledIssues, settledPulls) }

    constructor ()
      ensures State() == Durable(0, {}, {})
    {
      cursorFile, settledIssues, settledPulls := 0, {}, {};
    }

    /** The backend settles one window; then the clamped cursor is written. */
    method SettleWindow(w: Window, ceiling: Option<Stamp>)
      modifies this
      ensures State() == Settle(old(State()), w, ceiling)
    {
      settledIssues := settledIssues + IdentSet(w.issues);
      settledPulls := settledPulls + NumberSet(w.pulls);
      var effective := Effective(ceiling, OrEmpty(CursorFor(w)));
      if effective != 0 { cursorFile := effective; }
    }

    /** Submits windows in order until the backend refuses one: it settles at most `accepts` of them. */
    method SubmitWindows(ws: seq<Window>, ceiling: Option<Stamp>, accepts: nat) returns (n: nat)
      modifies this
      ensures n == Min(accepts, |ws|) && State() == SettleAll(old(State()), ws[..n], ceiling)
    {
      n := 0;
      while n < |ws| && n < accepts
        invariant n <= |ws| && n <= accepts && State() == SettleAll(old(State()), ws[..n], ceiling)
      {
        assert ws[..n + 1][..n] == ws[..n];
        SettleWindow(ws[n], ceiling);
        n := n + 1;
      }
    }

    /** One run against a source that does not change while it lasts. */
    method Run(ghost src: Source, owner: string, repo: string, issuePages: seq<seq<Issue>>, pullPages: seq<seq<Pull>>,
               seed: Stamp, maxWindow: nat, accepts: nat) returns (ghost f: Fetch, r: Result<nat, nat>)
      requires Listed(src) && src.owner == owner && src.repo == repo
      requires issuePages != [] && Flat(issuePages) == Since(src.issues, ResumeAt(State(), seed))
      requires pullPages != [] && Flat(pullPages) == src.pulls
      modifies this
      ensures Walked(src, ResumeAt(old(State()), seed), f) && Bounded(f, ResumeAt(old(State()), seed), maxWindow)
      ensures r.Err? <==> RunWindows(src, f, maxWindow).Err?
      ensures r.Err? ==> State() == old(State())
      ensures r.Ok? ==> r.value == Min(accepts, |RunWindows(src, f, maxWindow).value|)
      ensures r.Ok? ==> State() == AfterWindows(seed, old(State()), f, RunWindows(src, f, maxWindow).value, r.value)
      ensures NoLoss(src, seed, old(State())) && (r.Ok? ==> r.value == |RunWindows(src, f, maxWindow).value|) ==>
        NoLoss(src, seed, State())
      ensures (r.Ok? ==> NothingStrands(src, seed, old(State()), f, RunWindows(src, f, maxWindow).value)) ==>
        Safe(src, seed, old(State())) ==> Safe(src, seed, State())
    {
      hide NoLoss, Safe, Settle, SettleAll, RunWindows, CeilingOf, Bounded, Listed, Walked, Since, Flat, NothingStrands;
      ghost var before := State();
      var resume := if cursorFile != 0 then cursorFile else seed;
      var ws, ceiling;
      f, ws, ceiling := Gather(src, owner, repo, issuePages, pullPages, resume, maxWindow);
      if ws.Err? { return f, Err(ws.error); }
      var n := SubmitWindows(ws.value, ceiling, accepts);
      r := Ok(n);
      RunKeepsPromises(src, seed, before, f, maxWindow, ws.value, n);
    }
  }

  /** Both walks, the chunker and the ceiling, before anything is submitted. */
  method Gather(ghost src: Source, owner: string, repo: string, issuePages: seq<seq<Issue>>, pullPages: seq<seq<Pull>>,
                resume: Stamp, maxWindow: nat) returns (f: Fetch, ws: Result<seq<Window>, nat>, ceiling: Option<Stamp>)
    requires src.owner == owner && src.repo == repo
    requires issuePages != [] && Flat(issuePages) == Since(src.issues, resume)
    requires pullPages != [] && Flat(pullPages) == src.pulls
    ensures Walked(src, resume, f) && Bounded(f, resume, maxWindow)
    ensures ws == RunWindows(src, f, maxWindow) && ceiling == CeilingOf(f, resume)
  {
    hide Flat, Since, Windows, SafeCursorCeiling, Frontier, AsOption, ReachedBacklog;
    var issues, rows, issuesTruncated := WalkIssues(issuePages, 50 * maxWindow);
    var pulls, _, pullsTruncated := WalkPulls(pullPages, resume, rows, 50 * maxWindow);
    f := Fetch(issues, issuesTruncated, pulls, pullsTruncated);
    var prepared := Prepare(pulls, owner, repo);
    ceiling := SafeCursorCeiling(issuesTruncated, Frontier(issues), pullsTruncated, AsOption(resume));
    ws := ChunkWindows(issues, prepared, maxWindow);
  }

  /** Reverses the fetched pulls and folds their references, in place. */
  method Prepare(pulls: seq<Pull>, owner: string, repo: string) returns (prepared: seq<Pull>)
    ensures prepared == FoldPulls(owner, repo, Reversed(pulls))
  {
    var buffer := new Pull[|pulls|](i requires 0 <= i < |pulls| => pulls[|pulls| - 1 - i]);
    assert buffer[..] == Reversed(pulls);
    ghost var before := buffer[..];
    NormalizeClosingRepos(buffer, owner, repo);
    prepared := buffer[..];
    assert forall i :: 0 <= i < |pulls| ==> prepared[i] == FoldPull(owner, repo, before[i]);
  }

  lemma RunKeepsPromises(src: Source, seed: Stamp, d: Durable, f: Fetch, maxWindow: nat, ws: seq<Window>, n: nat)
    requires Listed(src) && Walked(src, ResumeAt(d, seed), f) && RunWindows(src, f, maxWindow) == Ok(ws) && n <= |ws|
    ensures NoLoss(src, seed, d) && n == |ws| ==> NoLoss(src, seed, AfterWindows(seed, d, f, ws, n))
    ensures Safe(src, seed, d) && NothingStrands(src, seed, d, f, ws) ==>
      Safe(src, seed, AfterWindows(seed, d, f, ws, n))
  {
    hide RunWindows, NoLoss, Walked, Listed, CeilingOf, SettleAll, Safe, NothingStrands;
    if NoLoss(src, seed, d) && n == |ws| {
      assert ws[..n] == ws;
      SettledRunLosesNothing(src, seed, d, f, maxWindow);
    }
    if Safe(src, seed, d) && NothingStrands(src, seed, d, f, ws) { PrefixIsSafe(src, seed, d, f, maxWindow, ws, n); }
  }
}
