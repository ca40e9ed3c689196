/** When runs move the cursor file on, and when they fetch the same rows for ever. */
module GithubProgress {
  import opened Common
  import opened GithubWindows
  import opened GithubCursors
  import opened GithubRuns
  import opened GithubStops
  import opened GithubAdapter

  // ----- a first run without a seed

  /** Issues, pulls and closing references, as the fetch bound counts them. */
  function RowsIn(src: Source): nat { |src.issues| + PullRowsOf(src.pulls) }

  lemma {:induction false} RowsOfPrefix(a: seq<Pull>, b: seq<Pull>)
    requires a <= b
    ensures PullRowsOf(a) <= PullRowsOf(b)
  {
    assert b == a + b[|a|..];
    PullRowsConcat(a, b[|a|..]);
  }

  /** Nothing is older than no cursor, so a cut issues walk leaves no room for the pulls, and both walks are cut as
      soon as the repository is wide enough. */
  lemma FirstFetch(src: Source, f: Fetch, maxWindow: nat)
    requires Walked(src, 0, f) && Bounded(f, 0, maxWindow)
    ensures f.pullsTruncated <==> RowsIn(src) >= 50 * maxWindow
    ensures f.issuesTruncated ==> f.pullsTruncated
  {
    SinceAll(src.issues, 0);
    RowsOfPrefix(f.pulls, src.pulls);
    hide Since, PullRowsOf;
  }

  lemma HeldWrites(f: Fetch, w: Window)
    requires f.pullsTruncated
    ensures Written(f, 0, w) == 0
  {
    hide CursorFor, Newest;
  }

  lemma HeldFile(d: Durable, f: Fetch, ws: seq<Window>, n: nat)
    requires d.file == 0 && f.pullsTruncated && n <= |ws|
    ensures AfterWindows(0, d, f, ws, n).file == 0
  {
    var i := WriterOf(0, d, f, ws, n);
    if i < |ws| { HeldWrites(f, ws[i]); }
    hide Written, AfterWindows, CursorFor, Newest;
  }

  /** Every run of the campaign keeps to the same fetch bound. */
  ghost predicate BoundedRuns(src: Source, seed: Stamp, rs: seq<RunRecord>, maxWindow: nat) {
    rs != [] ==>
      var (before, r) := (rs[..|rs| - 1], rs[|rs| - 1]);
      && BoundedRuns(src, seed, before, maxWindow) && r.maxWindow == maxWindow
      && Bounded(r.fetch, ResumeAt(AfterRuns(src, seed, Durable(0, {}, {}), before), seed), maxWindow)
  }

  /** Without a seed, a repository as wide as the fetch bound never gets a cursor: however many runs there are
      and wherever they stop, each starts from nothing and fetches the same rows. */
  lemma {:induction false} WideSourceNeverAdvances(src: Source, rs: seq<RunRecord>, maxWindow: nat)
    requires Campaign(src, 0, Durable(0, {}, {}), rs) && BoundedRuns(src, 0, rs, maxWindow)
    requires RowsIn(src) >= 50 * maxWindow
    ensures AfterRuns(src, 0, Durable(0, {}, {}), rs).file == 0
  {
    if rs != [] {
      var (before, r) := (rs[..|rs| - 1], rs[|rs| - 1]);
      WideSourceNeverAdvances(src, before, maxWindow);
      var (d, ws) := (AfterRuns(src, 0, Durable(0, {}, {}), before), RunWindows(src, r.fetch, r.maxWindow));
      hide RunWindows, Walked, Bounded, AfterWindows, RowsIn;
      FirstFetch(src, r.fetch, maxWindow);
      if ws.Ok? && r.settled <= |ws.value| { HeldFile(d, r.fetch, ws.value, r.settled); }
    }
  }

  // ----- a repository narrower than the bound

  /** No issue and no pull carries the empty timestamp. */
  ghost predicate Stamped(src: Source) {
    && (forall i :: 0 <= i < |src.issues| ==> src.issues[i].updatedAt > 0)
    && (forall i :: 0 <= i < |src.pulls| ==> src.pulls[i].updatedAt > 0)
  }

  /** A window's cursor is at least its first pull, or its first lone issue. */
  lemma FirstGroupShows(part: seq<Group>)
    requires part != []
    ensures part[0].pull.Some? ==> part[0].pull.value.updatedAt <= OrEmpty(CursorFor(WindowOf(part)))
    ensures forall x :: part[0] == StandaloneGroup(x) ==> x.updatedAt <= OrEmpty(CursorFor(WindowOf(part)))
  {
    PartHolds(part, 0);
    FirstRowsLead(part);
    if part[0].pull.Some? { CursorSeesPull(WindowOf(part), part[0].pull.value); }
    forall x | part[0] == StandaloneGroup(x) ensures x.updatedAt <= OrEmpty(CursorFor(WindowOf(part))) {
      assert [x][..0] == [] && Deduped([]) == [];
      assert Deduped([x])[0] == x;
      CursorSeesIssue(WindowOf(part), 0);
    }
  }

  lemma WindowIsStamped(src: Source, f: Fetch, maxWindow: nat, ws: seq<Window>, i: nat)
    requires Stamped(src) && Walked(src, 0, f) && RunWindows(src, f, maxWindow) == Ok(ws) && i < |ws|
    ensures OrEmpty(CursorFor(ws[i])) > 0
  {
    var (pulls, part) := (Prepared(src, f), PartsOf(src, f, maxWindow)[i]);
    WindowPart(src, f, maxWindow, i);
    OrderedGroups(f.issues, pulls);
    PartFrom(Ordered(f.issues, pulls), maxWindow, i);
    FirstGroupShows(part);
    hide RunWindows, Ordered, CursorFor, WindowOf, Whole, StandaloneGroups, PullGroups, Stamped, Walked, Prepared, Cut;
    assert part[0] in part;
    GroupIsStamped(src, f, part[0]);
  }

  lemma GroupIsStamped(src: Source, f: Fetch, g: Group)
    requires Stamped(src) && Walked(src, 0, f)
    requires g in StandaloneGroups(f.issues, Carried(Prepared(src, f))) || g in PullGroups(Prepared(src, f))
    ensures if g.pull.Some? then g.pull.value.updatedAt > 0 else exists x :: g == StandaloneGroup(x) && x.updatedAt > 0
  {
    var pulls := Prepared(src, f);
    SinceAll(src.issues, 0);
    StandaloneMember(f.issues, Carried(pulls), g);
    hide Since, Carried, StandaloneGroups, FoldPulls;
    if g in PullGroups(pulls) {
      var k :| 0 <= k < |pulls| && PullGroups(pulls)[k] == g;
      PreparedIsFolded(src, f, k);
    }
  }

  lemma FirstRunWrites(src: Source, d: Durable, f: Fetch, maxWindow: nat, ws: seq<Window>, n: nat)
    requires Stamped(src) && Walked(src, 0, f) && Bounded(f, 0, maxWindow) && RunWindows(src, f, maxWindow) == Ok(ws)
    requires RowsIn(src) < 50 * maxWindow && d.file == 0 && 0 < n <= |ws|
    ensures AfterWindows(0, d, f, ws, n).file > 0
  {
    FirstFetch(src, f, maxWindow);
    WindowIsStamped(src, f, maxWindow, ws, n - 1);
    assert Written(f, 0, ws[n - 1]) == OrEmpty(CursorFor(ws[n - 1]));
    hide Stamped, Walked, Bounded, RunWindows, CursorFor, Written, AfterWindows, RowsIn;
    AfterStep(0, d, f, ws, n);
  }

  lemma WrittenStays(src: Source, seed: Stamp, d: Durable, r: RunRecord)
    requires d.file > 0
    ensures AfterRun(src, seed, d, r).file > 0
  {
    var ws := RunWindows(src, r.fetch, r.maxWindow);
    hide RunWindows;
    if ws.Ok? && r.settled <= |ws.value| { var i := WriterOf(seed, d, r.fetch, ws.value, r.settled); }
  }

  /** The first run's windows form, and it settles one of them at least. */
  ghost predicate Starts(src: Source, r: RunRecord) {
    var ws := RunWindows(src, r.fetch, r.maxWindow);
    ws.Ok? && 0 < r.settled <= |ws.value|
  }

  lemma {:induction false} NarrowSourceAdvances(src: Source, rs: seq<RunRecord>, maxWindow: nat)
    requires Stamped(src) && rs != [] && Starts(src, rs[0])
    requires Campaign(src, 0, Durable(0, {}, {}), rs) && BoundedRuns(src, 0, rs, maxWindow)
    requires RowsIn(src) < 50 * maxWindow
    ensures AfterRuns(src, 0, Durable(0, {}, {}), rs).file > 0
  {
    var (before, r) := (rs[..|rs| - 1], rs[|rs| - 1]);
    hide RunWindows, Walked, Bounded, AfterWindows, RowsIn, Stamped;
    if before == [] {
      assert AfterRuns(src, 0, Durable(0, {}, {}), before) == Durable(0, {}, {});
      FirstRunWrites(src, Durable(0, {}, {}), r.fetch, maxWindow, RunWindows(src, r.fetch, maxWindow).value, r.settled);
    } else {
      NarrowSourceAdvances(src, before, maxWindow);
      WrittenStays(src, 0, AfterRuns(src, 0, Durable(0, {}, {}), before), r);
    }
  }

  /** Without a seed, any number of runs that each keep to the fetch bound come to have a cursor if and only if
      the repository has fewer rows than the bound. */
  lemma {:induction false} CursorAppearsIff(src: Source, rs: seq<RunRecord>, maxWindow: nat)
    requires Stamped(src) && rs != [] && Starts(src, rs[0])
    requires Campaign(src, 0, Durable(0, {}, {}), rs) && BoundedRuns(src, 0, rs, maxWindow)
    ensures AfterRuns(src, 0, Durable(0, {}, {}), rs).file > 0 <==> RowsIn(src) < 50 * maxWindow
  {
    if RowsIn(src) < 50 * maxWindow {
      NarrowSourceAdvances(src, rs, maxWindow);
    } else {
      WideSourceNeverAdvances(src, rs, maxWindow);
    }
  }

  // ----- later runs

  lemma LastWrites(seed: Stamp, d: Durable, f: Fetch, ws: seq<Window>)
    requires ws != [] && forall i, j :: 0 <= i < j < |ws| ==> Follows(ws[i], ws[j])
    ensures var c := Written(f, ResumeAt(d, seed), ws[|ws| - 1]);
      AfterWindows(seed, d, f, ws, |ws|).file == if c != 0 then c else d.file
  {
    var (n, resume) := (|ws| - 1, ResumeAt(d, seed));
    AfterStep(seed, d, f, ws, |ws|);
    var i := WriterOf(seed, d, f, ws, n);
    if i < n { WrittenInOrder(f, resume, ws[i], ws[n]); }
    hide Written, AfterWindows, CursorFor, Newest, Follows, ResumeAt;
  }

  lemma WrittenBeyond(f: Fetch, resume: Stamp, w: Window)
    requires resume > 0
    ensures Written(f, resume, w) > resume <==>
      !f.pullsTruncated && (f.issuesTruncated ==> Newest(f.issues, 0) > resume) && OrEmpty(CursorFor(w)) > resume
  {
    hide CursorFor, Newest;
  }

  /** Exactly when a settled run that started from a cursor ends with a newer one: the pulls walk reached what the
      cursor had seen, a cut issues walk brought something newer, and so did the last window. */
  lemma SettledRunAdvancesIff(src: Source, seed: Stamp, d: Durable, f: Fetch, maxWindow: nat, ws: seq<Window>)
    requires d.file > 0 && RunWindows(src, f, maxWindow) == Ok(ws) && ws != [] && AllShown(Prepared(src, f))
    ensures AfterWindows(seed, d, f, ws, |ws|).file > d.file <==>
      && !f.pullsTruncated && (f.issuesTruncated ==> Newest(f.issues, 0) > d.file)
      && OrEmpty(CursorFor(ws[|ws| - 1])) > d.file
  {
    CursorsNeverRegress(f.issues, Prepared(src, f), maxWindow);
    assert forall i, j :: 0 <= i < j < |ws| ==> Follows(ws[i], ws[j]);
    hide RunWindows, Windows, Prepared, AllShown, Written, Follows, AfterWindows, CursorFor, Newest;
    LastWrites(seed, d, f, ws);
    WrittenBeyond(f, d.file, ws[|ws| - 1]);
  }
}
