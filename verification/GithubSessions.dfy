/** The windows of one run, as the session that submits them sees them. */
module GithubSessions {
  import opened Common
  import opened Decimal
  import opened GithubWindows
  import opened GithubCursors
  import opened GithubUnits
  import opened GithubRuns
  import opened History
  import opened Session
  import opened Splitter

  function UnitsOf(owner: string, repo: string, ws: seq<Window>): (r: seq<BatchUnit>)
    ensures |r| == |ws| && forall i :: 0 <= i < |ws| ==> r[i] == UnitOf(owner, repo, ws[i])
  {
    seq(|ws|, i requires 0 <= i < |ws| => UnitOf(owner, repo, ws[i]))
  }

  /** The snapshot a window names is its cursor. */
  function CursorId(w: Window): string { if CursorFor(w).Some? then Digits(CursorFor(w).value) else "empty" }

  function CursorIds(ws: seq<Window>): (r: seq<string>)
    ensures |r| == |ws| && forall i :: 0 <= i < |ws| ==> r[i] == CursorId(ws[i])
  {
    seq(|ws|, i requires 0 <= i < |ws| => CursorId(ws[i]))
  }

  lemma UnitNamesCursor(owner: string, repo: string, w: Window)
    ensures UnitOf(owner, repo, w).snapshot == Some(CursorId(w))
  {
    hide CursorFor, Digits, IssueRows, PullRows, EdgesFor;
  }

  lemma {:induction false} SnapshotsAreCursors(owner: string, repo: string, ws: seq<Window>)
    ensures SnapshotIds(UnitsOf(owner, repo, ws)) == CursorIds(ws)
  {
    hide CursorId, UnitOf;
    if ws != [] {
      var (n, units) := (|ws| - 1, UnitsOf(owner, repo, ws));
      SnapshotsAreCursors(owner, repo, ws[..n]);
      assert units[..n] == UnitsOf(owner, repo, ws[..n]);
      UnitNamesCursor(owner, repo, ws[n]);
      assert CursorIds(ws) == CursorIds(ws[..n]) + [CursorId(ws[n])];
    }
  }

  lemma {:induction false} RecordedEnds(ids: seq<string>)
    ensures ids != [] ==> EndsIn(RecordAll([], ids), ids[|ids| - 1])
    ensures forall id :: id in RecordAll([], ids) ==> id in ids
  {
    if ids != [] {
      var n := |ids| - 1;
      RecordedEnds(ids[..n]);
      assert ids == ids[..n] + [ids[n]];
    }
  }

  lemma SameId(a: Window, b: Window)
    requires CursorFor(a).Some? && CursorFor(b).Some?
    ensures CursorId(a) == CursorId(b) <==> CursorFor(a) == CursorFor(b)
  {
    hide CursorFor, Digits;
    if CursorId(a) == CursorId(b) { DigitsInjective(CursorFor(a).value, CursorFor(b).value); }
  }

  lemma {:induction false} NamedLast(ids: seq<string>, id: string)
    requires id in ids ==> ids[|ids| - 1] == id
    ensures !Rewound(RecordAll([], ids), id)
  {
    RecordedEnds(ids);
    hide RecordAll;
  }

  /** No window's cursor is behind an earlier one's. */
  ghost predicate InOrder(ws: seq<Window>) { forall a, b :: 0 <= a < b < |ws| ==> Follows(ws[a], ws[b]) }

  /** An id named before is named by every window since. */
  lemma NamedSince(ws: seq<Window>, j: nat, i: nat)
    requires j < i < |ws| && CursorId(ws[j]) == CursorId(ws[i])
    requires InOrder(ws)
    ensures CursorId(ws[i - 1]) == CursorId(ws[i])
  {
    hide CursorFor, CursorId;
    if j < i - 1 {
      assert Follows(ws[j], ws[i - 1]) && Follows(ws[i - 1], ws[i]);
      SameId(ws[j], ws[i]);
      SameId(ws[i - 1], ws[i]);
    }
  }

  /** A moment at least as new as all before it has not been superseded. */
  lemma CursorsAreNotRewound(ws: seq<Window>, i: nat)
    requires i < |ws| && InOrder(ws)
    ensures !Rewound(RecordAll([], CursorIds(ws[..i])), CursorId(ws[i]))
  {
    hide RecordAll, CursorId, InOrder, Rewound;
    var (ids, id) := (CursorIds(ws[..i]), CursorId(ws[i]));
    forall j: nat | j < i && ids[j] == id ensures CursorId(ws[i - 1]) == id { NamedSince(ws, j, i); }
    NamedLast(ids, id);
  }

  lemma RunWindowsInOrder(src: Source, f: Fetch, maxWindow: nat, ws: seq<Window>, i: nat)
    requires RunWindows(src, f, maxWindow) == Ok(ws) && AllShown(Prepared(src, f)) && i < |ws|
    ensures |ws[i].issues| + |ws[i].pulls| <= Max(1, maxWindow)
    ensures InOrder(ws)
  {
    CursorsNeverRegress(f.issues, Prepared(src, f), maxWindow);
    WindowsAreSound(f.issues, Prepared(src, f), maxWindow, i);
    hide Follows, Prepared, AllShown, Windows;
  }

  /** In a fresh session under the adapter's own projection, once the windows before it have settled, a window of
      a run can be refused for the rows of the whole run and for nothing else: it is never too wide, and never a
      rewind. */
  lemma OnlyTheRunBoundRefuses(src: Source, f: Fetch, maxWindow: nat, ws: seq<Window>, i: nat, config: Config,
      rows: nat)
    requires RunWindows(src, f, maxWindow) == Ok(ws) && AllShown(Prepared(src, f)) && i < |ws|
    requires maxWindow > 0 && config.projection == Some(Bounds(maxWindow, 100 * maxWindow))
    ensures var (seen, unit) := (RecordAll([], SnapshotIds(UnitsOf(src.owner, src.repo, ws[..i]))),
        UnitOf(src.owner, src.repo, ws[i]));
      Admitted(config, rows, seen, [unit]) <==> rows + |unit.memories| <= 100 * maxWindow
  {
    hide InOrder, RunWindows, Prepared, AllShown, UnitOf, SnapshotIds, CursorId, RecordAll, Rewound;
    RunWindowsInOrder(src, f, maxWindow, ws, i);
    CursorsAreNotRewound(ws, i);
    SnapshotsAreCursors(src.owner, src.repo, ws[..i]);
    UnitParts(src.owner, src.repo, ws[i]);
    LoneUnit(src.owner, src.repo, ws[i]);
  }

  lemma LoneUnit(owner: string, repo: string, w: Window)
    ensures SnapshotIds([UnitOf(owner, repo, w)]) == [CursorId(w)]
    ensures WindowRows([UnitOf(owner, repo, w)]) == |UnitOf(owner, repo, w).memories|
  {
    UnitNamesCursor(owner, repo, w);
    var unit := UnitOf(owner, repo, w);
    hide UnitOf, CursorId;
    assert [unit][..0] == [];
  }
}
