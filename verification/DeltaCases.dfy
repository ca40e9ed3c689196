/** Concrete logs on which a scan is not what the history says: a missing commit, and what hangs on the checkpoint. */
module DeltaCases {
  import opened Common
  import opened Sorting
  import opened DeltaLog
  import opened DeltaScan

  // ----- a missing commit

  /** A missing commit goes unnoticed: only version 0 is looked for. The scan is accepted with the first and
      third commits alone, and a file that the second removed stays live. */
  lemma GapIsNotNoticed(path: string, partition: string, id: string)
    ensures var first := CommitFile(0, [MetaData(Meta(id, false)), Add(path, partition)]);
      var history := [first.acts, [Remove(path)], [Ignored]];
      var dir := [first, CommitFile(2, [Ignored])];
      && Records(dir, history, None) && Accepted(dir, NoHint, None)
      && path in Scanned(dir, None).files && path !in TableAt(history, 3).files
  {
    var (first, third) := (CommitFile(0, [MetaData(Meta(id, false)), Add(path, partition)]), CommitFile(2, [Ignored]));
    GapRecords(first, third, path);
    GapScan(first, third);
    GapHistory(first.acts, path);
    GapReplays(first.acts, path, partition, id);
    hide Versions, Commits, Replay, Flat, Applied, Scanned, TableAt, Records, NoSingles, NoParts, Leads, AnyMalformed;
  }

  lemma GapRecords(first: LogFile, third: LogFile, path: string)
    requires first.CommitFile? && third.CommitFile? && first.version == 0 && third.version == 2
    requires CommitActions(first.acts) && CommitActions(third.acts)
    ensures var dir := [first, third];
      && Records(dir, [first.acts, [Remove(path)], third.acts], None) && Leads(dir, Ok(None)) && 0 in Versions(dir)
      && (Malformed !in first.acts && Malformed !in third.acts ==> !AnyMalformed(dir, None))
  {
    GapVersions(first, third);
    hide Versions, Commits;
    assert NoSingles([first, third]) && NoParts([first, third]);
  }

  lemma GapVersions(first: LogFile, third: LogFile)
    requires first.CommitFile? && third.CommitFile? && first.version == 0 && third.version == 2
    ensures Versions([first, third]) == [0, 2] && Commits([first, third]) == map[0 := first.acts, 2 := third.acts]
  {
    FirstCommit(first.acts);
    hide Versions, Commits;
    ListingStep([first], third);
    assert [first] + [third] == [first, third];
  }

  lemma GapScan(first: LogFile, third: LogFile)
    requires first.CommitFile? && third.CommitFile? && first.version == 0 && third.version == 2
    ensures Scanned([first, third], None) == Replay(EMPTY, first.acts + third.acts)
  {
    hide Versions, Commits, Replay, StableSort, Selected;
    var dir := [first, third];
    GapVersions(first, third);
    AppliedAreCommits(dir, None);
    ZeroAndTwo(Versions(dir));
    assert ActionsOf(Commits(dir), Applied(dir, None)) == [first.acts, third.acts];
    TwoFlat(first.acts, third.acts);
  }

  lemma {:induction false} ZeroAndTwo(two: seq<nat>)
    requires two == [0, 2]
    ensures Selected(StableSort(two, Ascending), 0) == two
  {
    var last: seq<nat> := [2];
    assert two[1..] == last && last[1..] == [];
    assert StableSort(last, Ascending) == last;
    assert StableSort(two, Ascending) == two;
    var front: seq<nat> := [0];
    assert two[..1] == front && front[..0] == [];
    assert Selected(front, 0) == front;
  }

  lemma {:induction false} GapHistory(acts: seq<Action>, path: string)
    ensures TableAt([acts, [Remove(path)], [Ignored]], 3) == Replay(EMPTY, acts + [Remove(path)] + [Ignored])
  {
    var h := [acts, [Remove(path)], [Ignored]];
    assert h[..3] == h && h[..2] == [acts, [Remove(path)]];
    TwoFlat(acts, [Remove(path)]);
  }

  lemma {:induction false} GapReplays(acts: seq<Action>, path: string, partition: string, id: string)
    requires acts == [MetaData(Meta(id, false)), Add(path, partition)]
    ensures path in Replay(EMPTY, acts + [Ignored]).files
      && Replay(EMPTY, acts + [Ignored]).meta == Some(Meta(id, false))
      && Replay(EMPTY, acts + [Ignored]).protocol == None
    ensures path !in Replay(EMPTY, acts + [Remove(path)] + [Ignored]).files
  {
    var (kept, gone) := (acts + [Ignored], acts + [Remove(path)] + [Ignored]);
    assert kept[..2] == acts && acts[..1] == [MetaData(Meta(id, false))];
    assert [MetaData(Meta(id, false))][..0] == [];
    assert Replay(EMPTY, acts[..1]) == Table(map[], Some(Meta(id, false)), None);
    assert gone[..3] == acts + [Remove(path)] && (acts + [Remove(path)])[..2] == acts;
  }

  // ----- two commits and one checkpoint

  function TwoFiles(a: seq<Action>, b: seq<Action>, v: nat, row: Row): seq<LogFile> {
    [CommitFile(0, a), CommitFile(1, b), SingleFile(v, [row])]
  }

  function At(v: nat, row: Row): Option<Checkpoint> { Some(Checkpoint(v, [[row]])) }

  /** Commit files and one single-file checkpoint. */
  lemma LoneSingleLeads(dir: seq<LogFile>, v: nat, rows: seq<Row>)
    requires dir != [] && dir[|dir| - 1] == SingleFile(v, rows)
    requires forall i :: 0 <= i < |dir| - 1 ==> dir[i].CommitFile?
    ensures Leads(dir, Ok(Some(Checkpoint(v, [rows]))))
  {
    assert HasSingle(dir, v);
    assert NewestSingle(dir, v);
    assert SingleFile(v, rows) in dir;
  }

  /** One more file changes what is listed by that file alone. */
  lemma {:induction false} ListingStep(dir: seq<LogFile>, f: LogFile)
    ensures Versions(dir + [f]) == Versions(dir) + if f.CommitFile? then [f.version] else []
    ensures Commits(dir + [f]) == if f.CommitFile? then Commits(dir)[f.version := f.acts] else Commits(dir)
  {
    assert (dir + [f])[..|dir|] == dir;
  }

  lemma FirstCommit(a: seq<Action>)
    ensures Versions([CommitFile(0, a)]) == [0] && Commits([CommitFile(0, a)]) == map[0 := a]
  {
    ListingStep([], CommitFile(0, a));
    assert [] + [CommitFile(0, a)] == [CommitFile(0, a)];
    assert Versions([]) == [] && Commits([]) == map[];
  }

  lemma TwoCommits(a: seq<Action>, b: seq<Action>, v: nat, row: Row)
    ensures Versions(TwoFiles(a, b, v, row)) == [0, 1] && Commits(TwoFiles(a, b, v, row)) == map[0 := a, 1 := b]
    ensures Leads(TwoFiles(a, b, v, row), Ok(At(v, row)))
  {
    LoneSingleLeads(TwoFiles(a, b, v, row), v, [row]);
    FirstCommit(a);
    hide Versions, Commits, Leads;
    var (one, two) := ([CommitFile(0, a)], [CommitFile(0, a), CommitFile(1, b)]);
    ListingStep(one, CommitFile(1, b));
    assert one + [CommitFile(1, b)] == two;
    ListingStep(two, SingleFile(v, [row]));
    assert two + [SingleFile(v, [row])] == TwoFiles(a, b, v, row);
  }

  lemma OneRow(row: Row)
    requires row.Row?
    ensures !AnyBadRow([[row]]) && forall r :: InParts([[row]], r) <==> r == row
  {
    assert [[row]][0] == [row] && row in [row];
  }

  /** A row with metadata, and perhaps a reader version, describes a table without files. */
  lemma OneRowDescribes(row: Row, t: Table)
    requires row.Row? && row.add == None && row.remove == None && t.files == map[]
    requires row.meta == t.meta && row.minReader == Version(t)
    ensures FaithfulRows([[row]], t)
  {
    OneRow(row);
    hide InParts;
  }

  lemma {:induction false} TwoCommitTables(a: seq<Action>, b: seq<Action>)
    ensures TableAt([a, b], 1) == Replay(EMPTY, a) && TableAt([a, b], 2) == Replay(Replay(EMPTY, a), b)
  {
    assert [a, b][..1] == [a] && [a, b][..2] == [a, b];
    TwoFlat(a, b);
    ReplayConcat(EMPTY, a, b);
  }

  lemma {:induction false} LoneReplays(t: Table, x: Action)
    ensures Replay(t, [x]) == Apply(t, x)
  {
    assert [x][..0] == [];
  }

  lemma TwoCommitsRecorded(a: seq<Action>, b: seq<Action>, v: nat, row: Row)
    requires v <= 1 && CommitActions(a) && CommitActions(b) && FaithfulRows([[row]], TableAt([a, b], v + 1))
    ensures Records(TwoFiles(a, b, v, row), [a, b], At(v, row)) && Complete(TwoFiles(a, b, v, row), [a, b], At(v, row))
  {
    hide CommitActions, FaithfulRows, TableAt;
    var dir := TwoFiles(a, b, v, row);
    assert dir[0] == CommitFile(0, a) && dir[1] == CommitFile(1, b);
  }

  /** Two commits and a faithful one-row checkpoint at `v`: what a scan of them meets. */
  lemma TwoCommitScan(a: seq<Action>, b: seq<Action>, v: nat, row: Row)
    requires v <= 1 && CommitActions(a) && CommitActions(b) && Malformed !in a && Malformed !in b && row.Row?
    requires FaithfulRows([[row]], TableAt([a, b], v + 1))
    ensures var (dir, c) := (TwoFiles(a, b, v, row), At(v, row));
      && Records(dir, [a, b], c) && Complete(dir, [a, b], c) && Begun(dir, NoHint, c)
      && !AnyMalformed(dir, c) && !AnyBadRow(c.value.parts) && Base(c) == Kept(TableAt([a, b], v + 1))
      && Scanned(dir, c) == Seen([a, b], c)
  {
    TwoCommits(a, b, v, row);
    OneRow(row);
    FaithfulRowsReplay([[row]], TableAt([a, b], v + 1));
    FaithfulReplays(CheckpointActions([[row]]), TableAt([a, b], v + 1));
    TwoCommitsRecorded(a, b, v, row);
    hide Versions, Commits, CommitActions, Faithful, FaithfulRows, CheckpointActions, Leads, TableAt, Replay, Records,
      Complete, Scanned, TwoFiles, AnyBadRow, Seen, InParts;
    ScanIsTheTable(TwoFiles(a, b, v, row), [a, b], At(v, row));
  }

  function MetaRow(meta: Meta): Row { Row(None, None, Some(meta), None) }

  /** One history, two faithful checkpoints: from the first a scan is refused, from the second it is not. */
  lemma MappingDependsOnCheckpoint(id: string)
    ensures var (on, off) := (Meta(id, true), Meta(id, false));
      var (a, b) := ([MetaData(on)], [MetaData(off)]);
      var (early, c) := (TwoFiles(a, b, 0, MetaRow(on)), At(0, MetaRow(on)));
      var (late, d) := (TwoFiles(a, b, 1, MetaRow(off)), At(1, MetaRow(off)));
      && Records(early, [a, b], c) && Complete(early, [a, b], c) && Begun(early, NoHint, c) && MappingRefuses(early, c)
      && Records(late, [a, b], d) && Complete(late, [a, b], d) && Accepted(late, NoHint, d)
  {
    var (on, off) := (Meta(id, true), Meta(id, false));
    var (a, b) := ([MetaData(on)], [MetaData(off)]);
    TwoCommitTables(a, b);
    LoneReplays(EMPTY, MetaData(on));
    LoneReplays(Replay(EMPTY, a), MetaData(off));
    hide Replay, TableAt, Restates, Records, Complete, Begun, Scanned, Base, AnyBadRow, AnyMalformed, TwoFiles,
      FaithfulRows;
    OneRowDescribes(MetaRow(on), TableAt([a, b], 1));
    OneRowDescribes(MetaRow(off), TableAt([a, b], 2));
    TwoCommitScan(a, b, 0, MetaRow(on));
    TwoCommitScan(a, b, 1, MetaRow(off));
  }

  /** A protocol refused for a feature alone is not refused from a checkpoint of it. */
  lemma FeatureIsForgotten(id: string, protocol: Protocol, version: int)
    requires "deletionVectors" in protocol.Features() && protocol.minReader == Some(version) && version <= 2
    ensures var (a, b) := ([MetaData(Meta(id, false))], [Action.Protocol(protocol)]);
      var row := Row(None, None, Some(Meta(id, false)), Some(version));
      var (dir, c) := (TwoFiles(a, b, 1, row), At(1, row));
      && Records(dir, [a, b], c) && Complete(dir, [a, b], c) && Accepted(dir, NoHint, c)
      && Refusal(TableAt([a, b], 2).protocol) == Some(Feature("deletionVectors"))
  {
    var (meta, row) := (Meta(id, false), Row(None, None, Some(Meta(id, false)), Some(version)));
    var (a, b) := ([MetaData(meta)], [Action.Protocol(protocol)]);
    TwoCommitTables(a, b);
    LoneReplays(EMPTY, MetaData(meta));
    LoneReplays(Replay(EMPTY, a), Action.Protocol(protocol));
    hide Replay, TableAt, Records, Complete, Begun, Scanned, Base, AnyBadRow, AnyMalformed, TwoFiles, FaithfulRows;
    OneRowDescribes(row, TableAt([a, b], 2));
    TwoCommitScan(a, b, 1, row);
    assert [a, b][2..] == [];
    assert VersionOnly(version).Features() == {};
  }

  // ----- a version that is not the newest

  /** The first commit of two, and a checkpoint as of the second. */
  function Trimmed(a: seq<Action>, row: Row): seq<LogFile> { [CommitFile(0, a), SingleFile(1, [row])] }

  lemma TrimmedFiles(a: seq<Action>, row: Row)
    ensures Versions(Trimmed(a, row)) == [0] && Commits(Trimmed(a, row)) == map[0 := a]
    ensures Leads(Trimmed(a, row), Ok(At(1, row)))
  {
    LoneSingleLeads(Trimmed(a, row), 1, [row]);
    FirstCommit(a);
    hide Versions, Commits, Leads;
    ListingStep([CommitFile(0, a)], SingleFile(1, [row]));
    assert [CommitFile(0, a)] + [SingleFile(1, [row])] == Trimmed(a, row);
  }

  /** The checkpoint covers a commit whose own file is gone: the table is right and the version is stale. */
  lemma VersionCanBeStale(id: string)
    ensures var (a, row) := ([MetaData(Meta(id, false))], MetaRow(Meta(id, false)));
      var (dir, h, c) := (Trimmed(a, row), [a, [Ignored]], At(1, row));
      Records(dir, h, c) && Complete(dir, h, c) && Accepted(dir, NoHint, c) && Versions(dir) == [0]
  {
    var (meta, row) := (Meta(id, false), MetaRow(Meta(id, false)));
    var a := [MetaData(meta)];
    hide Replay, TableAt, Versions, Commits, Leads, AnyBadRow, AnyMalformed, CheckpointActions, Records, Complete,
      Scanned, Base, Restates, FaithfulRows, InParts;
    LoneMetaTable(meta);
    TrimmedFiles(a, row);
    OneRow(row);
    OneRowDescribes(row, TableAt([a, [Ignored]], 2));
    TrimmedScan(a, row);
  }

  lemma LoneMetaTable(meta: Meta)
    ensures TableAt([[MetaData(meta)], [Ignored]], 2) == Table(map[], Some(meta), None)
  {
    hide Replay, TableAt;
    TwoCommitTables([MetaData(meta)], [Ignored]);
    LoneReplays(EMPTY, MetaData(meta));
    LoneReplays(Replay(EMPTY, [MetaData(meta)]), Ignored);
  }

  lemma TrimmedScan(a: seq<Action>, row: Row)
    requires CommitActions(a) && Malformed !in a && FaithfulRows([[row]], TableAt([a, [Ignored]], 2))
    ensures var (dir, h, c) := (Trimmed(a, row), [a, [Ignored]], At(1, row));
      && Records(dir, h, c) && Complete(dir, h, c) && !AnyMalformed(dir, c)
      && Base(c) == Kept(TableAt(h, 2)) && Scanned(dir, c) == Seen(h, c)
  {
    TrimmedFiles(a, row);
    TrimmedRecorded(a, row);
    FaithfulRowsReplay([[row]], TableAt([a, [Ignored]], 2));
    FaithfulReplays(CheckpointActions([[row]]), TableAt([a, [Ignored]], 2));
    hide Replay, TableAt, Versions, Commits, Leads, CheckpointActions, Trimmed, FaithfulRows, Faithful, Scanned, Seen,
      Records, Complete;
    ScanIsTheTable(Trimmed(a, row), [a, [Ignored]], At(1, row));
  }

  lemma TrimmedRecorded(a: seq<Action>, row: Row)
    requires CommitActions(a) && FaithfulRows([[row]], TableAt([a, [Ignored]], 2))
    ensures Records(Trimmed(a, row), [a, [Ignored]], At(1, row))
      && Complete(Trimmed(a, row), [a, [Ignored]], At(1, row))
  {
    hide FaithfulRows, TableAt;
  }

  // ----- parts numbered as the protocol numbers them

  lemma ChosenHasPartZero(dir: seq<LogFile>, r: Result<Option<Checkpoint>, DeltaError>)
    requires Leads(dir, r) && NoSingles(dir)
    ensures r.Ok? && r.value.Some? ==> exists w: nat, t: nat :: HasPart(dir, w, 0, t)
  {
    if r.Ok? && r.value.Some? {
      var c := r.value.value;
      assert HasParts(dir, c.version, |c.parts|);
      var i: nat :| HasPart(dir, c.version, i, |c.parts|);
      assert PartFile(c.version, 0, |c.parts|, c.parts[0]) in dir;
      assert HasPart(dir, c.version, 0, |c.parts|);
    }
  }

  /** The protocol numbers parts from 1. Of such a checkpoint the last part's name is ignored and part 0 is
      looked for: whatever choosing returns, it is that parts are missing. */
  lemma PartsFromOneAreRefused(dir: seq<LogFile>, r: Result<Option<Checkpoint>, DeltaError>, v: nat, total: nat)
    requires Leads(dir, r) && NoSingles(dir)
    requires HasPart(dir, v, 1, total) && forall w: nat, t: nat :: !HasPart(dir, w, 0, t)
    ensures r == Err(MissingParts)
  {
    ChosenHasPartZero(dir, r);
    assert HasParts(dir, v, total);
    hide Chosen, HasPart, HasParts, Torn;
  }
}
