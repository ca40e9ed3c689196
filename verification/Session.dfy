/** An adapter session: prepare a window's batches under the byte budget, deliver them, and only then
    move the cursor. */
module Session {
  import opened Common
  import opened Splitter
  import opened Splitting
  import opened Delivery
  import opened History

  const MIN_BUDGET: nat := 64
  const SLACK: nat := 16

  /** A batch on the wire, tagged with the unit it came from. */
  datatype Wire = Wire(unit: nat, batch: Batch)

  datatype Bounds = Bounds(maxRowsPerWindow: nat, maxRowsPerRun: nat)

  /** `sizes` are the lengths the splitter estimates; `stamped` is the length after stamping and signing. */
  datatype Config = Config(
    projection: Option<Bounds>,
    maxAttempts: nat,
    maxBatchBytes: nat,
    sizes: BatchUnit -> Sizes,
    stamped: Wire -> nat)

  // ----- preparing batches

  function Tagged(unit: nat, bs: seq<Batch>): (r: seq<Wire>)
    ensures |r| == |bs| && forall i :: 0 <= i < |bs| ==> r[i] == Wire(unit, bs[i])
  {
    seq(|bs|, i requires 0 <= i < |bs| => Wire(unit, bs[i]))
  }

  ghost function SplitAll(units: seq<BatchUnit>, config: Config, budget: nat): Result<seq<Wire>, SdkError> {
    if units == [] then Ok([])
    else
      var n := |units| - 1;
      var before := SplitAll(units[..n], config, budget);
      if before.Err? then before
      else
        match Split(units[n], config.sizes(units[n]), budget)
        case Err(e) => Err(e)
        case Ok(bs) => Ok(before.value + Tagged(n, bs))
  }

  /** How far the first batch over the limit is over it. */
  function Overshoot(wires: seq<Wire>, config: Config): (r: Option<nat>)
    ensures r.None? <==> forall i :: 0 <= i < |wires| ==> config.stamped(wires[i]) <= config.maxBatchBytes
  {
    if wires == [] then None
    else if config.stamped(wires[0]) > config.maxBatchBytes then Some(config.stamped(wires[0]) - config.maxBatchBytes)
    else
      assert wires == [wires[0]] + wires[1..];
      Overshoot(wires[1..], config)
  }

  function NextBudget(budget: nat, over: nat): nat {
    Max(MIN_BUDGET, if over + SLACK <= budget then budget - (over + SLACK) else 0)
  }

  /** The next budget is smaller only above the floor. Below it, the budget grows to the floor. */
  lemma NextBudgetMoves(budget: nat, over: nat)
    ensures NextBudget(budget, over) < budget <==> budget > MIN_BUDGET
    ensures NextBudget(budget, over) == budget <==> budget == MIN_BUDGET
    ensures NextBudget(budget, over) > budget <==> budget < MIN_BUDGET
    ensures NextBudget(budget, over) > MIN_BUDGET ==> NextBudget(budget, over) + over + SLACK == budget
  {
  }

  /** Rounds left: every budget reaches the floor and stops there. */
  function Rounds(budget: nat): nat { if budget >= MIN_BUDGET then budget - MIN_BUDGET else 1 }

  function KeysOf(wires: seq<Wire>): seq<string> {
    if wires == [] then [] else KeysOf(wires[..|wires| - 1]) + DraftKeys(wires[|wires| - 1].batch.memories)
  }

  ghost function Prepare(units: seq<BatchUnit>, config: Config, budget: nat): Result<seq<Wire>, SdkError>
    decreases Rounds(budget)
  {
    var split := SplitAll(units, config, budget);
    if split.Err? then split
    else
      var over := Overshoot(split.value, config);
      if over.None? then split
      else if NextBudget(budget, over.value) == budget then Err(Unsplittable(KeysOf(split.value), MaxBytes))
      else Prepare(units, config, NextBudget(budget, over.value))
  }

  method SplitUnits(units: seq<BatchUnit>, config: Config, budget: nat) returns (r: Result<seq<Wire>, SdkError>)
    ensures r == SplitAll(units, config, budget)
  {
    hide Split;
    var wires: seq<Wire> := [];
    for i := 0 to |units|
      invariant SplitAll(units[..i], config, budget) == Ok(wires)
    {
      assert units[..i + 1][..i] == units[..i];
      var bs := SplitUnit(units[i], config.sizes(units[i]), budget);
      if bs.Err? {
        SplitStopsThere(units, config, budget, i + 1);
        return Err(bs.error);
      }
      wires := wires + Tagged(i, bs.value);
    }
    assert units[..|units|] == units;
    r := Ok(wires);
  }

  lemma {:induction false} SplitStopsThere(units: seq<BatchUnit>, config: Config, budget: nat, i: nat)
    requires i <= |units| && SplitAll(units[..i], config, budget).Err?
    ensures SplitAll(units, config, budget) == SplitAll(units[..i], config, budget)
  {
    if i == |units| {
      assert units[..i] == units;
    } else {
      assert units[..|units| - 1][..i] == units[..i];
      SplitStopsThere(units[..|units| - 1], config, budget, i);
    }
  }

  method PrepareBatches(units: seq<BatchUnit>, config: Config) returns (r: Result<seq<Wire>, SdkError>)
    ensures r == Prepare(units, config, config.maxBatchBytes)
  {
    hide SplitAll;
    var budget := config.maxBatchBytes;
    while true
      invariant Prepare(units, config, budget) == Prepare(units, config, config.maxBatchBytes)
      decreases Rounds(budget)
    {
      r := SplitUnits(units, config, budget);
      if r.Err? { return; }
      var over := Overshoot(r.value, config);
      if over.None? { return; }
      var next := NextBudget(budget, over.value);
      if next == budget {
        return Err(Unsplittable(KeysOf(r.value), MaxBytes));
      }
      budget := next;
    }
  }

  /** A split at the full budget that fits as it goes out is what is sent: nothing is split further than needed. */
  lemma {:induction false} FullBudgetIsKept(units: seq<BatchUnit>, config: Config)
    requires SplitAll(units, config, config.maxBatchBytes).Ok?
    requires forall w :: w in SplitAll(units, config, config.maxBatchBytes).value ==>
      config.stamped(w) <= config.maxBatchBytes
    ensures Prepare(units, config, config.maxBatchBytes) == SplitAll(units, config, config.maxBatchBytes)
  {
    hide SplitAll;
  }

  /** Prepared batches fit the limit as they go out, and are a split of the units at some budget. */
  lemma {:induction false} PreparedFits(units: seq<BatchUnit>, config: Config, budget: nat)
    ensures var r := Prepare(units, config, budget);
      r.Ok? ==>
        && (forall i :: 0 <= i < |r.value| ==> config.stamped(r.value[i]) <= config.maxBatchBytes)
        && exists b :: SplitAll(units, config, b) == r
    decreases Rounds(budget)
  {
    hide SplitAll;
    var split := SplitAll(units, config, budget);
    if split.Ok? && Overshoot(split.value, config).Some?
      && NextBudget(budget, Overshoot(split.value, config).value) != budget {
      PreparedFits(units, config, NextBudget(budget, Overshoot(split.value, config).value));
    }
  }

  /** The batches of one unit, in order. */
  function BatchesOf(wires: seq<Wire>, unit: nat): seq<Batch> {
    if wires == [] then []
    else
      var w := wires[|wires| - 1];
      BatchesOf(wires[..|wires| - 1], unit) + if w.unit == unit then [w.batch] else []
  }

  lemma {:induction false} BatchesOfConcat(a: seq<Wire>, b: seq<Wire>, unit: nat)
    ensures BatchesOf(a + b, unit) == BatchesOf(a, unit) + BatchesOf(b, unit)
  {
    if b == [] {
      assert a + b == a;
    } else {
      assert (a + b)[..|a| + |b| - 1] == a + b[..|b| - 1];
      BatchesOfConcat(a, b[..|b| - 1], unit);
    }
  }

  lemma {:induction false} BatchesOfTagged(bs: seq<Batch>, from: nat, unit: nat)
    ensures BatchesOf(Tagged(from, bs), unit) == if from == unit then bs else []
  {
    if bs != [] {
      assert Tagged(from, bs)[..|bs| - 1] == Tagged(from, bs[..|bs| - 1]);
      BatchesOfTagged(bs[..|bs| - 1], from, unit);
    }
  }

  /** Each unit's batches are exactly that unit's split. */
  lemma {:induction false} SplitAllByUnit(units: seq<BatchUnit>, config: Config, budget: nat, i: nat)
    requires SplitAll(units, config, budget).Ok?
    ensures i >= |units| ==> BatchesOf(SplitAll(units, config, budget).value, i) == []
    ensures i < |units| ==>
      Split(units[i], config.sizes(units[i]), budget) == Ok(BatchesOf(SplitAll(units, config, budget).value, i))
  {
    hide Split;
    if units != [] {
      var n := |units| - 1;
      SplitAllByUnit(units[..n], config, budget, i);
      var bs := Split(units[n], config.sizes(units[n]), budget).value;
      BatchesOfConcat(SplitAll(units[..n], config, budget).value, Tagged(n, bs), i);
      BatchesOfTagged(bs, n, i);
      hide BatchesOf;
      var before := BatchesOf(SplitAll(units[..n], config, budget).value, i);
      assert BatchesOf(SplitAll(units, config, budget).value, i) == if i == n then bs else before;
      if i < n { assert units[..n][i] == units[i]; }
    }
  }

  /** What goes on the wire is the window: every memory and relationship of every unit exactly once,
      relationships beside their endpoints, and no batch over the limit it is submitted under. */
  lemma {:induction false} PreparedIsTheWindow(units: seq<BatchUnit>, config: Config, i: nat)
    requires Prepare(units, config, config.maxBatchBytes).Ok? && i < |units|
    ensures var wires := Prepare(units, config, config.maxBatchBytes).value;
      && multiset(BatchMemories(BatchesOf(wires, i))) == multiset(units[i].memories)
      && multiset(BatchRelationships(BatchesOf(wires, i))) == multiset(units[i].relationships)
      && (forall k :: 0 <= k < |BatchesOf(wires, i)| ==>
            Colocated(BatchesOf(wires, i)[k].memories, BatchesOf(wires, i)[k].relationships))
      && (forall k :: 0 <= k < |wires| ==> config.stamped(wires[k]) <= config.maxBatchBytes)
  {
    PreparedFits(units, config, config.maxBatchBytes);
    var r := Prepare(units, config, config.maxBatchBytes);
    var b :| SplitAll(units, config, b) == r;
    hide Prepare, SplitAll, Split, BatchesOf, BatchMemories, BatchRelationships, Colocated;
    SplitAllByUnit(units, config, b, i);
    SplitIsPartition(units[i], config.sizes(units[i]), b);
  }

  // ----- submitting a window

  datatype SubmitError =
    | BoundExceeded
    | SourceRewound
    | LocalRejections
    | Unprepared(why: SdkError)
    | Undelivered(failure: Failure)
    | CursorIo

  function WindowRows(units: seq<BatchUnit>): nat {
    if units == [] then 0 else WindowRows(units[..|units| - 1]) + |units[|units| - 1].memories|
  }

  function SnapshotIds(units: seq<BatchUnit>): seq<string> {
    if units == [] then []
    else
      var u := units[|units| - 1];
      SnapshotIds(units[..|units| - 1]) + if u.snapshot.Some? then [u.snapshot.value] else []
  }

  /** The window is within the projection's bounds, by itself and with the rows of the run so far. */
  predicate WithinBounds(config: Config, rows: nat, units: seq<BatchUnit>) {
    config.projection.Some? ==>
      && WindowRows(units) <= config.projection.value.maxRowsPerWindow
      && rows + WindowRows(units) <= config.projection.value.maxRowsPerRun
  }

  /** The declared projection admits the window after `rows` rows and this history. */
  ghost predicate Admitted(config: Config, rows: nat, seen: seq<string>, units: seq<BatchUnit>) {
    WithinBounds(config, rows, units) && (config.projection.Some? ==> Admissible(seen, SnapshotIds(units)))
  }

  method CountRows(units: seq<BatchUnit>) returns (rows: nat)
    ensures rows == WindowRows(units)
  {
    rows := 0;
    for i := 0 to |units|
      invariant rows == WindowRows(units[..i])
    {
      assert units[..i + 1][..i] == units[..i];
      rows := rows + |units[i].memories|;
    }
    assert units[..|units|] == units;
  }

  method AnyRewound(units: seq<BatchUnit>, seen: seq<string>) returns (found: bool)
    ensures found <==> !Admissible(seen, SnapshotIds(units))
  {
    found := false;
    for i := 0 to |units|
      invariant found <==> !Admissible(seen, SnapshotIds(units[..i]))
    {
      NextSnapshot(units, i);
      if units[i].snapshot.Some? {
        AdmissibleStep(seen, SnapshotIds(units[..i]), units[i].snapshot.value);
        if Rewound(seen, units[i].snapshot.value) { found := true; }
      }
    }
    assert units[..|units|] == units;
  }

  lemma AdmissibleStep(seen: seq<string>, ids: seq<string>, id: string)
    ensures Admissible(seen, ids + [id]) <==> Admissible(seen, ids) && !Rewound(seen, id)
  {
    assert (ids + [id])[|ids|] == id;
    assert forall i :: 0 <= i < |ids| ==> (ids + [id])[i] == ids[i];
  }

  lemma NextSnapshot(units: seq<BatchUnit>, i: nat)
    requires i < |units|
    ensures var before := SnapshotIds(units[..i]);
      SnapshotIds(units[..i + 1]) == if units[i].snapshot.Some? then before + [units[i].snapshot.value] else before
  {
    assert units[..i + 1][..i] == units[..i];
  }

  lemma {:induction false} RecordStep(seen: seq<string>, ids: seq<string>, id: string)
    requires |seen| <= HISTORY
    ensures RecordAll(seen, ids + [id]) == Record(RecordAll(seen, ids), id)
    ensures |RecordAll(seen, ids)| <= HISTORY
  {
    assert (ids + [id])[..|ids|] == ids;
    HistoryIsNewest(seen, ids);
  }

  lemma {:induction false} NothingRecorded(seen: seq<string>)
    ensures RecordAll(seen, []) == seen
  {
  }

  method RecordSnapshots(units: seq<BatchUnit>, seen: seq<string>) returns (after: seq<string>)
    requires |seen| <= HISTORY
    ensures after == RecordAll(seen, SnapshotIds(units)) && |after| <= HISTORY
  {
    after := seen;
    hide RecordAll;
    NothingRecorded(seen);
    for i := 0 to |units|
      invariant after == RecordAll(seen, SnapshotIds(units[..i])) && |after| <= HISTORY
    {
      NextSnapshot(units, i);
      hide SnapshotIds;
      if units[i].snapshot.Some? {
        var id := units[i].snapshot.value;
        RecordStep(seen, SnapshotIds(units[..i]), id);
        if after == [] || after[|after| - 1] != id {
          after := after + [id];
          if |after| > HISTORY { after := after[1..]; }
        }
      }
    }
    assert units[..|units|] == units;
  }

  class AdapterSession {
    const config: Config
    var cursor: Option<string>
    var disk: Option<string>
    var rowsThisRun: nat
    var seenSnapshots: seq<string>

    /** The history is bounded, and under a projection the run's rows are. */
    ghost predicate Valid() reads this {
      |seenSnapshots| <= HISTORY && (config.projection.Some? ==> rowsThisRun <= config.projection.value.maxRowsPerRun)
    }

    constructor (config: Config, loaded: Option<string>)
      ensures Valid() && this.config == config && cursor == disk == loaded && rowsThisRun == 0 && seenSnapshots == []
    {
      this.config, cursor, disk, rowsThisRun, seenSnapshots := config, loaded, loaded, 0, [];
    }

    /** Every check made before any wire traffic. */
    method Check(units: seq<BatchUnit>, locallyRejected: bool) returns (r: Result<seq<Wire>, SubmitError>)
      ensures r.Ok? <==>
        Admitted(config, rowsThisRun, seenSnapshots, units) && !locallyRejected
          && Prepare(units, config, config.maxBatchBytes).Ok?
      ensures r.Ok? ==> r.value == Prepare(units, config, config.maxBatchBytes).value
      ensures r == Err(BoundExceeded) <==> !WithinBounds(config, rowsThisRun, units)
      ensures r == Err(SourceRewound) <==>
        && WithinBounds(config, rowsThisRun, units)
        && config.projection.Some? && !Admissible(seenSnapshots, SnapshotIds(units))
      ensures r == Err(LocalRejections) <==> Admitted(config, rowsThisRun, seenSnapshots, units) && locallyRejected
      ensures r.Err? && r.error.Unprepared? <==>
        && Admitted(config, rowsThisRun, seenSnapshots, units) && !locallyRejected
        && Prepare(units, config, config.maxBatchBytes).Err?
      ensures r.Err? && r.error.Unprepared? ==> r.error.why == Prepare(units, config, config.maxBatchBytes).error
      ensures r.Err? ==> !r.error.Undelivered? && !r.error.CursorIo?
    {
      hide Prepare, Admissible;
      if config.projection.Some? {
        var rows := CountRows(units);
        if rows > config.projection.value.maxRowsPerWindow
          || rowsThisRun + rows > config.projection.value.maxRowsPerRun {
          return Err(BoundExceeded);
        }
        var rewound := AnyRewound(units, seenSnapshots);
        if rewound { return Err(SourceRewound); }
      }
      if locallyRejected { return Err(LocalRejections); }
      var batches := PrepareBatches(units, config);
      if batches.Err? { return Err(Unprepared(batches.error)); }
      r := Ok(batches.value);
    }

    /** Submits one window. `locallyRejected` is the local rulebook's verdict, `server` whatever the backend
        answers to each send of each batch, `writable` whether the cursor file can be written. */
    method SubmitWindow(units: seq<BatchUnit>, newCursor: string, locallyRejected: bool, server: nat -> nat -> Reply,
        writable: bool)
      returns (r: Result<Outcome, SubmitError>, sends: nat)
      requires Valid()
      modifies this
      ensures Valid()
      ensures r.Err? ==>
        && cursor == old(cursor) && disk == old(disk)
        && rowsThisRun == old(rowsThisRun) && seenSnapshots == old(seenSnapshots)
      ensures r.Ok? ==> cursor == disk == Some(newCursor)
      ensures r.Ok? ==> rowsThisRun == old(rowsThisRun) + WindowRows(units)
      ensures r.Ok? ==> seenSnapshots == RecordAll(old(seenSnapshots), SnapshotIds(units))
      ensures var batches := Prepare(units, config, config.maxBatchBytes);
        r.Ok? <==>
          && Admitted(config, old(rowsThisRun), old(seenSnapshots), units) && !locallyRejected && batches.Ok?
          && (forall b :: 0 <= b < |batches.value| ==> BatchSettles(server, b, config.maxAttempts))
          && writable
      ensures r == Err(Undelivered(FatalReply)) <==>
        && Admitted(config, old(rowsThisRun), old(seenSnapshots), units) && !locallyRejected
        && Prepare(units, config, config.maxBatchBytes).Ok?
        && WindowDies(server, |Prepare(units, config, config.maxBatchBytes).value|, config.maxAttempts)
      ensures r.Ok? ==>
        var batches := Prepare(units, config, config.maxBatchBytes).value;
        DeliverAll(server, |batches|, config.maxAttempts) == Sent(Ok(r.value), sends)
      ensures var batches := Prepare(units, config, config.maxBatchBytes);
        sends <= if batches.Ok? then |batches.value| * Max(1, config.maxAttempts) else 0
      ensures config.projection.Some? && |SnapshotIds(units)| <= 1 && Distinct(old(seenSnapshots)) ==>
        Distinct(seenSnapshots)
    {
      hide Prepare, BatchSettles, WindowDies, DeliverAll, Distinct;
      sends := 0;
      var batches := Check(units, locallyRejected);
      if batches.Err? { return Err(batches.error), 0; }
      var n := |batches.value|;
      WindowSettlesIff(server, n, config.maxAttempts);
      var sent;
      sent, sends := SendAll(server, n, config.maxAttempts);
      if sent.Err? { return Err(Undelivered(sent.error)), sends; }
      if !writable { return Err(CursorIo), sends; }
      disk := Some(newCursor);
      cursor := Some(newCursor);
      var rows := CountRows(units);
      rowsThisRun := rowsThisRun + rows;
      if config.projection.Some? && |SnapshotIds(units)| <= 1 && Distinct(seenSnapshots) {
        OneSnapshotKeepsDistinct(seenSnapshots, SnapshotIds(units));
      }
      seenSnapshots := RecordSnapshots(units, seenSnapshots);
      r := Ok(sent.value);
    }
  }
}
