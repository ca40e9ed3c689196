/** What an adapter can check after chunking, from what it fetched, before it submits anything. */
module GithubChecks {
  import opened Common
  import opened GithubWindows
  import opened GithubUnits
  import opened GithubRuns
  import opened GithubStops

  // ----- the check

  /** Window `i` writes a cursor past a pull of a later window that no window up to `i` settles. */
  predicate PullWaits(f: Fetch, seed: Stamp, resume: Stamp, ws: seq<Window>, i: nat, j: nat, k: nat) {
    && i < j < |ws| && k < |ws[j].pulls|
    && Max(seed, resume) <= ws[j].pulls[k].updatedAt < Written(f, resume, ws[i])
    && !PullSettledBy(ws[..i + 1], ws[j].pulls[k].number)
  }

  /** The same of a fetched issue, unless a fetched pull at or after that cursor brings it again. */
  predicate IssueWaits(owner: string, repo: string, f: Fetch, seed: Stamp, resume: Stamp, ws: seq<Window>, i: nat,
      k: nat) {
    && i < |ws| && k < |f.issues|
    && Max(seed, resume) <= f.issues[k].updatedAt < Written(f, resume, ws[i])
    && !SettledBy(ws[..i + 1], IdentOf(f.issues[k]))
    && !Rebrought(owner, repo, f.pulls, Written(f, resume, ws[i]), IdentOf(f.issues[k]))
  }

  predicate Rebrought(owner: string, repo: string, pulls: seq<Pull>, cursor: Stamp, x: Ident) {
    exists t :: 0 <= t < |pulls| && pulls[t].updatedAt >= cursor && x in RefsIn(owner, repo, pulls[t])
  }

  predicate NothingWaits(owner: string, repo: string, f: Fetch, seed: Stamp, resume: Stamp, ws: seq<Window>) {
    && (forall i, j, k :: 0 <= i < j < |ws| && 0 <= k < |ws[j].pulls| ==> !PullWaits(f, seed, resume, ws, i, j, k))
    && (forall i, k :: 0 <= i < |ws| && 0 <= k < |f.issues| ==> !IssueWaits(owner, repo, f, seed, resume, ws, i, k))
  }

  /** Numbers identify: the source lists no pull and no issue twice. */
  ghost predicate Identified(src: Source) {
    Distinct(Numbers(src.pulls)) && Distinct(Idents(src.issues))
  }

  // ----- passing it keeps every stop safe

  lemma SameNumber(src: Source, a: nat, b: nat)
    requires Identified(src) && a < |src.pulls| && b < |src.pulls|
    ensures src.pulls[a].number == src.pulls[b].number ==> a == b
  {
    assert Numbers(src.pulls)[a] == src.pulls[a].number && Numbers(src.pulls)[b] == src.pulls[b].number;
  }

  lemma SameIdent(src: Source, a: nat, b: nat)
    requires Identified(src) && a < |src.issues| && b < |src.issues|
    ensures IdentOf(src.issues[a]) == IdentOf(src.issues[b]) ==> a == b
  {
    assert Idents(src.issues)[a] == IdentOf(src.issues[a]) && Idents(src.issues)[b] == IdentOf(src.issues[b]);
  }

  /** A window that settles a pull settles what the pull closes. */
  lemma SettledPullSettlesRefs(src: Source, f: Fetch, resume: Stamp, maxWindow: nat, ws: seq<Window>, n: nat, t: nat,
      x: Ident)
    requires Identified(src) && Walked(src, resume, f) && RunWindows(src, f, maxWindow) == Ok(ws) && n <= |ws|
    requires t < |src.pulls| && x in Refs(src, src.pulls[t]) && PullSettledBy(ws[..n], src.pulls[t].number)
    ensures SettledBy(ws[..n], x)
  {
    var m :| 0 <= m < n && src.pulls[t].number in NumberSet(ws[..n][m].pulls);
    assert ws[..n][m] == ws[m];
    var k :| 0 <= k < |ws[m].pulls| && Numbers(ws[m].pulls)[k] == src.pulls[t].number;
    var u := WindowPullIsSource(src, resume, f, maxWindow, ws, m, k);
    SameNumber(src, t, u);
    WindowsAreSound(f.issues, Prepared(src, f), maxWindow, m);
    hide Prepared, Windows, FoldPull;
    assert ws[m].pulls[k] in ws[m].pulls;
  }

  /** A windowed pull from before this run was settled before it. */
  lemma OlderPullWasKept(src: Source, seed: Stamp, d: Durable, f: Fetch, maxWindow: nat, ws: seq<Window>, j: nat,
      k: nat)
    requires Running(src, seed, d, f, maxWindow, ws) && j < |ws| && k < |ws[j].pulls|
    requires seed <= ws[j].pulls[k].updatedAt < ResumeAt(d, seed)
    ensures ws[j].pulls[k].number in d.pulls
  {
    hide RunWindows;
    var t := WindowPullIsSource(src, ResumeAt(d, seed), f, maxWindow, ws, j, k);
    assert src.pulls[t].number == ws[j].pulls[k].number && src.pulls[t].updatedAt == ws[j].pulls[k].updatedAt;
  }

  lemma SafeStrandsNoPull(src: Source, seed: Stamp, d: Durable, f: Fetch, maxWindow: nat, ws: seq<Window>, i: nat,
      j: nat, k: nat)
    requires Running(src, seed, d, f, maxWindow, ws)
    requires NothingWaits(src.owner, src.repo, f, seed, ResumeAt(d, seed), ws)
    ensures !PullStrands(seed, d, f, ws, i, j, k)
  {
    hide Written, PullSettledBy, Running, NothingWaits;
    Unwaiting(src.owner, src.repo, seed, ResumeAt(d, seed), f, ws, i, j, k);
    if j < |ws| && k < |ws[j].pulls| && seed <= ws[j].pulls[k].updatedAt < ResumeAt(d, seed) {
      OlderPullWasKept(src, seed, d, f, maxWindow, ws, j, k);
    }
  }

  lemma SafeStrandsNoIssue(src: Source, seed: Stamp, d: Durable, f: Fetch, maxWindow: nat, ws: seq<Window>, i: nat,
      j: nat, k: nat)
    requires Running(src, seed, d, f, maxWindow, ws) && Identified(src)
    requires NothingWaits(src.owner, src.repo, f, seed, ResumeAt(d, seed), ws)
    ensures !IssueStrands(src, seed, d, f, ws, i, j, k)
  {
    var resume := ResumeAt(d, seed);
    if IssueStrands(src, seed, d, f, ws, i, j, k) {
      WrittenHolds(f, resume, ws[i]);
      hide Written, SettledBy, RunWindows, IdentSet, Newest, CursorFor, NothingWaits, Identified, Listed, Walked;
      var c := Written(f, resume, ws[i]);
      if resume <= src.issues[k].updatedAt {
        IssueIsFetched(src, resume, f, c, k);
        FetchedIssueWaits(src, seed, resume, f, ws, i, k);
      } else {
        BroughtBack(src, seed, d, f, maxWindow, ws, i, k);
      }
    }
  }

  /** A fetched issue that window `i` writes past is settled by then, or carried by a pull ahead. */
  lemma FetchedIssueWaits(src: Source, seed: Stamp, resume: Stamp, f: Fetch, ws: seq<Window>, i: nat, k: nat)
    requires Walked(src, resume, f) && i < |ws| && k < |src.issues| && src.issues[k] in f.issues
    requires Max(seed, resume) <= src.issues[k].updatedAt < Written(f, resume, ws[i])
    requires NothingWaits(src.owner, src.repo, f, seed, resume, ws)
    ensures SettledBy(ws[..i + 1], IdentOf(src.issues[k]))
      || Awaited(src, Written(f, resume, ws[i]), IdentOf(src.issues[k]))
  {
    hide Written, SettledBy, PullWaits, RefsIn;
    var x := IdentOf(src.issues[k]);
    var a :| 0 <= a < |f.issues| && f.issues[a] == src.issues[k];
    assert !IssueWaits(src.owner, src.repo, f, seed, resume, ws, i, a);
    if Rebrought(src.owner, src.repo, f.pulls, Written(f, resume, ws[i]), x) {
      var t :| 0 <= t < |f.pulls| && f.pulls[t].updatedAt >= Written(f, resume, ws[i])
        && x in RefsIn(src.owner, src.repo, f.pulls[t]);
      assert src.pulls[t] == f.pulls[t] && x in Refs(src, src.pulls[t]);
    }
  }

  /** A pull that window `i` writes past is settled by then, with all it closes. */
  lemma PassedPullSettles(src: Source, seed: Stamp, resume: Stamp, f: Fetch, maxWindow: nat, ws: seq<Window>, i: nat,
      t: nat, x: Ident)
    requires Listed(src) && Walked(src, resume, f) && Identified(src) && RunWindows(src, f, maxWindow) == Ok(ws)
    requires NothingWaits(src.owner, src.repo, f, seed, resume, ws) && i < |ws| && t < |src.pulls|
    requires Max(seed, resume) <= src.pulls[t].updatedAt < Written(f, resume, ws[i]) && x in Refs(src, src.pulls[t])
    ensures SettledBy(ws[..i + 1], x)
  {
    WrittenHolds(f, resume, ws[i]);
    hide RunWindows, Written, NothingWaits, SettledBy, PullSettledBy, Newest, CursorFor, Identified, Refs;
    PullIsFetched(src, resume, f, Written(f, resume, ws[i]), t);
    hide Listed, Walked;
    PullIsEarly(src, seed, resume, f, maxWindow, ws, i, t);
    SettledPullSettlesRefs(src, f, resume, maxWindow, ws, i + 1, t, x);
  }

  /** An issue from before this run that a pull was still to bring is settled with that pull. */
  lemma BroughtBack(src: Source, seed: Stamp, d: Durable, f: Fetch, maxWindow: nat, ws: seq<Window>, i: nat, k: nat)
    requires Running(src, seed, d, f, maxWindow, ws) && Identified(src) && i < |ws| && k < |src.issues|
    requires NothingWaits(src.owner, src.repo, f, seed, ResumeAt(d, seed), ws)
    requires seed <= src.issues[k].updatedAt < ResumeAt(d, seed)
    ensures var x := IdentOf(src.issues[k]);
      x in d.issues || SettledBy(ws[..i + 1], x) || Awaited(src, Written(f, ResumeAt(d, seed), ws[i]), x)
  {
    var x := IdentOf(src.issues[k]);
    hide RunWindows, Written, NothingWaits, SettledBy, Identified, Listed, Walked, Refs;
    if x !in d.issues {
      var t :| 0 <= t < |src.pulls| && src.pulls[t].updatedAt >= d.file && x in Refs(src, src.pulls[t]);
      if src.pulls[t].updatedAt < Written(f, ResumeAt(d, seed), ws[i]) {
        hide Safe, Awaited;
        PassedPullSettles(src, seed, ResumeAt(d, seed), f, maxWindow, ws, i, t, x);
      }
    }
  }

  /** A fetched pull that window `i` writes past is settled by then. */
  lemma PullIsEarly(src: Source, seed: Stamp, resume: Stamp, f: Fetch, maxWindow: nat, ws: seq<Window>, i: nat, t: nat)
    requires RunWindows(src, f, maxWindow) == Ok(ws) && i < |ws|
      && NothingWaits(src.owner, src.repo, f, seed, resume, ws)
    requires t < |src.pulls| && src.pulls[t] in f.pulls
    requires Max(seed, resume) <= src.pulls[t].updatedAt < Written(f, resume, ws[i])
    ensures PullSettledBy(ws[..i + 1], src.pulls[t].number)
  {
    var w, k := FetchedPullAt(src, f, maxWindow, ws, src.pulls[t]);
    hide RunWindows, Written, NothingWaits;
    Unwaiting(src.owner, src.repo, seed, resume, f, ws, i, w, k);
    if w <= i {
      NumberMember(ws[w].pulls, ws[w].pulls[k]);
      assert ws[..i + 1][w] == ws[w];
    }
  }

  lemma Unwaiting(owner: string, repo: string, seed: Stamp, resume: Stamp, f: Fetch, ws: seq<Window>, i: nat, j: nat,
      k: nat)
    requires NothingWaits(owner, repo, f, seed, resume, ws)
    ensures !PullWaits(f, seed, resume, ws, i, j, k)
  {
  }

  /** Whatever the backend holds: a run that passes the check may stop after any window. */
  lemma CheckedStopsAreSafe(src: Source, seed: Stamp, d: Durable, f: Fetch, maxWindow: nat, ws: seq<Window>)
    requires Running(src, seed, d, f, maxWindow, ws) && Identified(src)
    requires NothingWaits(src.owner, src.repo, f, seed, ResumeAt(d, seed), ws)
    ensures NothingStrands(src, seed, d, f, ws)
  {
    hide Running, Identified, NothingWaits, PullStrands, IssueStrands;
    forall i: nat, j: nat, k: nat ensures !PullStrands(seed, d, f, ws, i, j, k) {
      SafeStrandsNoPull(src, seed, d, f, maxWindow, ws, i, j, k);
    }
    forall i: nat, j: nat, k: nat ensures !IssueStrands(src, seed, d, f, ws, i, j, k) {
      SafeStrandsNoIssue(src, seed, d, f, maxWindow, ws, i, j, k);
    }
  }

  // ----- failing it, some backend loses a row

  /** A backend that has settled exactly what it must have by this cursor. */
  ghost function Bare(src: Source, seed: Stamp, file: Stamp): Durable {
    Durable(file,
      set k | 0 <= k < |src.issues| && seed <= src.issues[k].updatedAt < file :: IdentOf(src.issues[k]),
      set k | 0 <= k < |src.pulls| && seed <= src.pulls[k].updatedAt < file :: src.pulls[k].number)
  }

  lemma BareIsSafe(src: Source, seed: Stamp, file: Stamp)
    ensures Safe(src, seed, Bare(src, seed, file))
  {
  }

  lemma WaitingPullIsLost(src: Source, seed: Stamp, file: Stamp, f: Fetch, maxWindow: nat, ws: seq<Window>, i: nat,
      j: nat, k: nat)
    requires Running(src, seed, Bare(src, seed, file), f, maxWindow, ws) && Identified(src)
    requires PullWaits(f, seed, ResumeAt(Bare(src, seed, file), seed), ws, i, j, k)
    ensures PullStrands(seed, Bare(src, seed, file), f, ws, i, j, k)
  {
    var d := Bare(src, seed, file);
    hide RunWindows, Written, PullSettledBy, Safe, Listed;
    var t := WindowPullIsSource(src, ResumeAt(d, seed), f, maxWindow, ws, j, k);
    assert src.pulls[t].number == ws[j].pulls[k].number && src.pulls[t].updatedAt == ws[j].pulls[k].updatedAt;
    forall u | 0 <= u < |src.pulls| && seed <= src.pulls[u].updatedAt < file
      ensures src.pulls[u].number != src.pulls[t].number
    {
      SameNumber(src, t, u);
    }
  }

  /** A pull at or after a written cursor was fetched. */
  lemma AheadIsFetched(src: Source, resume: Stamp, f: Fetch, c: Stamp, t: nat)
    requires Listed(src) && Walked(src, resume, f) && t < |src.pulls|
    requires resume < c <= src.pulls[t].updatedAt && !f.pullsTruncated
    ensures src.pulls[t] in f.pulls
  {
    if f.pulls != src.pulls {
      var k :| 0 <= k < |f.pulls| && f.pulls[k].updatedAt < resume;
      assert f.pulls[k] == src.pulls[k];
      assert t < k;
      assert f.pulls[t] == src.pulls[t];
    }
  }

  lemma NotRebroughtIsNotAwaited(src: Source, resume: Stamp, f: Fetch, c: Stamp, x: Ident)
    requires Listed(src) && Walked(src, resume, f) && resume < c && !f.pullsTruncated
    requires !Rebrought(src.owner, src.repo, f.pulls, c, x)
    ensures !Awaited(src, c, x)
  {
    hide RefsIn, Listed, Walked;
    if Awaited(src, c, x) {
      var t :| 0 <= t < |src.pulls| && src.pulls[t].updatedAt >= c && x in Refs(src, src.pulls[t]);
      AheadIsFetched(src, resume, f, c, t);
    }
  }

  lemma WaitingIssueIsLost(src: Source, seed: Stamp, file: Stamp, f: Fetch, maxWindow: nat, ws: seq<Window>, i: nat,
      k: nat)
    requires Running(src, seed, Bare(src, seed, file), f, maxWindow, ws) && Identified(src)
    requires IssueWaits(src.owner, src.repo, f, seed, ResumeAt(Bare(src, seed, file), seed), ws, i, k)
    ensures exists j: nat, m: nat :: IssueStrands(src, seed, Bare(src, seed, file), f, ws, i, j, m)
  {
    hide RunWindows, Written, SettledBy, Safe, CursorFor, Newest, IdentSet, Identified, CeilingOf;
    var d := Bare(src, seed, file);
    var resume := ResumeAt(d, seed);
    var x := IdentOf(f.issues[k]);
    var w := FetchedIssueIsWindowed(src, f, maxWindow, f.issues[k]);
    WrittenHolds(f, resume, ws[i]);
    var m := SourceOf(src, resume, f, k);
    SettledByThen(ws, i, w, x);
    NotRebroughtIsNotAwaited(src, resume, f, Written(f, resume, ws[i]), x);
    hide Listed, Walked, Awaited;
    forall u | 0 <= u < |src.issues| && seed <= src.issues[u].updatedAt < file ensures IdentOf(src.issues[u]) != x {
      SameIdent(src, m, u);
    }
    assert IssueStrands(src, seed, d, f, ws, i, w, m);
  }

  lemma SourceOf(src: Source, resume: Stamp, f: Fetch, k: nat) returns (m: nat)
    requires Walked(src, resume, f) && k < |f.issues|
    ensures m < |src.issues| && src.issues[m] == f.issues[k]
  {
    SinceIsListed(src.issues, resume);
    assert f.issues[k] == Since(src.issues, resume)[k];
    assert f.issues[k] in Since(src.issues, resume);
    m :| 0 <= m < |src.issues| && src.issues[m] == f.issues[k];
  }

  lemma {:induction false} SinceIsListed(issues: seq<Issue>, resume: Stamp)
    ensures forall x :: x in Since(issues, resume) ==> x in issues
  {
    if issues != [] { SinceIsListed(issues[1..], resume); }
  }

  lemma SettledByThen(ws: seq<Window>, i: nat, w: nat, x: Ident)
    requires i < |ws| && w < |ws| && x in IdentSet(ws[w].issues)
    ensures w <= i ==> SettledBy(ws[..i + 1], x)
  {
    hide IdentSet;
    if w <= i { assert ws[..i + 1][w] == ws[w]; }
  }

  /** Exactly what makes a run free to stop anywhere, given its cursor file but not what the backend holds: the
      check passes, from the fetched rows and the windows alone. */
  lemma SafeToStopIff(src: Source, seed: Stamp, file: Stamp, f: Fetch, maxWindow: nat, ws: seq<Window>)
    requires Listed(src) && Identified(src) && RunWindows(src, f, maxWindow) == Ok(ws)
    requires Walked(src, ResumeFrom(file, seed), f)
    ensures NothingWaits(src.owner, src.repo, f, seed, ResumeFrom(file, seed), ws) <==>
      forall d: Durable, n: nat :: d.file == file && Safe(src, seed, d) && n <= |ws| ==>
        Safe(src, seed, AfterWindows(seed, d, f, ws, n))
  {
    var resume := ResumeFrom(file, seed);
    if NothingWaits(src.owner, src.repo, f, seed, resume, ws) {
      hide Safe, AfterWindows, NothingWaits, Listed, Identified, Walked, RunWindows;
      forall d: Durable, n: nat | d.file == file && Safe(src, seed, d) && n <= |ws|
        ensures Safe(src, seed, AfterWindows(seed, d, f, ws, n))
      {
        CheckedStopsAreSafe(src, seed, d, f, maxWindow, ws);
        PrefixIsSafe(src, seed, d, f, maxWindow, ws, n);
      }
    } else {
      hide Safe, AfterWindows, Listed, Identified, Walked, RunWindows, PullWaits, IssueWaits;
      SomethingWaits(src, seed, file, f, maxWindow, ws);
    }
  }

  lemma SomethingWaits(src: Source, seed: Stamp, file: Stamp, f: Fetch, maxWindow: nat, ws: seq<Window>)
    requires Listed(src) && Identified(src) && RunWindows(src, f, maxWindow) == Ok(ws)
    requires Walked(src, ResumeFrom(file, seed), f)
    requires !NothingWaits(src.owner, src.repo, f, seed, ResumeFrom(file, seed), ws)
    ensures exists n: nat :: n <= |ws| && !Safe(src, seed, AfterWindows(seed, Bare(src, seed, file), f, ws, n))
    ensures Bare(src, seed, file).file == file && Safe(src, seed, Bare(src, seed, file))
  {
    var (d, resume) := (Bare(src, seed, file), ResumeFrom(file, seed));
    BareIsSafe(src, seed, file);
    hide Safe, AfterWindows, Listed, Identified, Walked, RunWindows, PullWaits, IssueWaits;
    if i, j, k :| 0 <= i < j < |ws| && 0 <= k < |ws[j].pulls| && PullWaits(f, seed, resume, ws, i, j, k) {
      WaitingPullIsLost(src, seed, file, f, maxWindow, ws, i, j, k);
      StrandedPullIsLost(src, seed, d, f, maxWindow, ws, i, j, k);
    } else {
      var i, k :| 0 <= i < |ws| && 0 <= k < |f.issues| && IssueWaits(src.owner, src.repo, f, seed, resume, ws, i, k);
      WaitingIssueIsLost(src, seed, file, f, maxWindow, ws, i, k);
      var j: nat, m: nat :| IssueStrands(src, seed, d, f, ws, i, j, m);
      StrandedIssueIsLost(src, seed, d, f, ws, i, j, m);
    }
  }

  /** When no pull closes an issue updated after it, the check passes. */
  lemma NoNewerRefsPass(src: Source, seed: Stamp, file: Stamp, f: Fetch, maxWindow: nat, ws: seq<Window>)
    requires Listed(src) && Identified(src) && RunWindows(src, f, maxWindow) == Ok(ws) && RefsNoNewer(src)
    requires Walked(src, ResumeFrom(file, seed), f)
    ensures NothingWaits(src.owner, src.repo, f, seed, ResumeFrom(file, seed), ws)
  {
    hide Safe, AfterWindows, NothingWaits, Listed, Identified, Walked, RunWindows, RefsNoNewer;
    forall d: Durable, n: nat | d.file == file && Safe(src, seed, d) && n <= |ws|
      ensures Safe(src, seed, AfterWindows(seed, d, f, ws, n))
    {
      NoNewerRefsStrandNothing(src, seed, d, f, maxWindow, ws);
      PrefixIsSafe(src, seed, d, f, maxWindow, ws, n);
    }
    SafeToStopIff(src, seed, file, f, maxWindow, ws);
  }
}
