/** `scan_table`: find the newest checkpoint in a log directory, replay it, then every later commit. */
module DeltaScan {
  import opened Common
  import opened Sorting
  import opened DeltaLog

  /** A checkpoint row: any of its action columns may be set, or it cannot be read. Of a protocol action the reader
      version is all that is read. */
  datatype Row =
    | Row(add: Option<(string, string)>, remove: Option<string>, meta: Option<Meta>, minReader: Option<int>)
    | BadRow

  /** The `_last_checkpoint` file: absent or unreadable, not parseable, naming sidecar files, or classic. */
  datatype Hint = NoHint | Unparsable | Sidecars | Classic

  /** What a directory entry's name says it is, with its contents. */
  datatype LogFile =
    | CommitFile(version: nat, acts: seq<Action>)
    | SingleFile(version: nat, rows: seq<Row>)
    | PartFile(version: nat, part: nat, total: nat, rows: seq<Row>)
    | OtherFile

  datatype Checkpoint = Checkpoint(version: nat, parts: seq<seq<Row>>)

  datatype DeltaError =
    | NoCommits | BadHint | V2Checkpoint | BothShapes | MissingParts | LogIncomplete
    | BadCheckpoint | BadAction | NoMetaData | ColumnMapping | Feature(name: string) | NewerReader

  datatype Scan = Scan(tableId: string, version: nat, files: map<string, string>)

  // ----- choosing a checkpoint

  ghost predicate HasSingle(dir: seq<LogFile>, v: nat) {
    exists i :: 0 <= i < |dir| && dir[i].SingleFile? && dir[i].version == v
  }

  /** A part whose number is below the total its name states; other names are ignored. */
  predicate ValidPart(f: LogFile) { f.PartFile? && f.part < f.total }

  ghost predicate HasPart(dir: seq<LogFile>, v: nat, i: nat, total: nat) {
    exists k :: 0 <= k < |dir| && ValidPart(dir[k]) && dir[k].version == v && dir[k].part == i && dir[k].total == total
  }

  ghost predicate HasParts(dir: seq<LogFile>, v: nat, total: nat) {
    exists i: nat :: HasPart(dir, v, i, total)
  }

  ghost predicate NewestSingle(dir: seq<LogFile>, v: nat) {
    HasSingle(dir, v) && forall w: nat :: HasSingle(dir, w) ==> w <= v
  }

  predicate KeyLe(a: (nat, nat), b: (nat, nat)) { a.0 < b.0 || (a.0 == b.0 && a.1 <= b.1) }

  ghost predicate NewestParts(dir: seq<LogFile>, v: nat, total: nat) {
    HasParts(dir, v, total) && forall w: nat, u: nat :: HasParts(dir, w, u) ==> KeyLe((w, u), (v, total))
  }

  /** The checkpoint a scan starts from: the newest single file, even where a newer multi-part one exists;
      only without any single file, the newest multi-part one, with every part in place. */
  ghost predicate Chosen(dir: seq<LogFile>, c: Checkpoint) {
    if !NoSingles(dir) then
      NewestSingle(dir, c.version) && |c.parts| == 1 && SingleFile(c.version, c.parts[0]) in dir
    else
      && NewestParts(dir, c.version, |c.parts|)
      && forall i :: 0 <= i < |c.parts| ==> PartFile(c.version, i, |c.parts|, c.parts[i]) in dir
  }

  type Parts = map<(nat, nat), map<nat, seq<Row>>>

  /** What the listing loop has collected. */
  ghost predicate GatheredSingle(dir: seq<LogFile>, single: Option<(nat, seq<Row>)>) {
    && (single.None? ==> forall v: nat :: !HasSingle(dir, v))
    && (single.Some? ==> SingleFile(single.value.0, single.value.1) in dir && forall v: nat :: HasSingle(dir, v) ==>
      v <= single.value.0)
  }

  ghost predicate GatheredParts(dir: seq<LogFile>, multi: Parts) {
    && (forall v: nat, i: nat, t: nat :: HasPart(dir, v, i, t) ==> (v, t) in multi && i in multi[(v, t)])
    && (forall k :: k in multi ==> multi[k] != map[] && forall i :: i in multi[k] ==> PartAt(dir, k, i, multi[k][i]))
  }

  ghost predicate PartAt(dir: seq<LogFile>, k: (nat, nat), i: nat, rows: seq<Row>) {
    i < k.1 && PartFile(k.0, i, k.1, rows) in dir
  }

  lemma NextFile(dir: seq<LogFile>, f: LogFile)
    ensures forall v :: HasSingle(dir + [f], v) <==> HasSingle(dir, v) || (f.SingleFile? && f.version == v)
    ensures forall v, i, t :: HasPart(dir + [f], v, i, t) <==>
      HasPart(dir, v, i, t) || (ValidPart(f) && f.version == v && f.part == i && f.total == t)
  {
    var more := dir + [f];
    assert more[|dir|] == f && forall k :: 0 <= k < |dir| ==> more[k] == dir[k];
    forall v ensures HasSingle(more, v) <==> HasSingle(dir, v) || (f.SingleFile? && f.version == v) {
      if HasSingle(dir, v) {
        var i :| 0 <= i < |dir| && dir[i].SingleFile? && dir[i].version == v;
        assert more[i].SingleFile? && more[i].version == v;
      }
    }
    forall v, i, t ensures HasPart(more, v, i, t) <==>
      HasPart(dir, v, i, t) || (ValidPart(f) && f.version == v && f.part == i && f.total == t) {
      if HasPart(dir, v, i, t) {
        var k :| 0 <= k < |dir| && ValidPart(dir[k]) && dir[k].version == v && dir[k].part == i && dir[k].total == t;
        assert ValidPart(more[k]);
      }
    }
  }

  lemma PlacePart(dir: seq<LogFile>, f: LogFile, multi: Parts)
    requires GatheredParts(dir, multi) && ValidPart(f)
    ensures var key := (f.version, f.total);
      GatheredParts(dir + [f], multi[key := (if key in multi then multi[key] else map[])[f.part := f.rows]])
  {
    NextFile(dir, f);
    hide HasSingle, HasPart;
    var key := (f.version, f.total);
    var have: map<nat, seq<Row>> := if key in multi then multi[key] else map[];
    var after := multi[key := have[f.part := f.rows]];
    forall k | k in after ensures after[k] != map[] && forall i :: i in after[k] ==>
      PartAt(dir + [f], k, i, after[k][i]) {
      forall i | i in after[k] ensures PartAt(dir + [f], k, i, after[k][i]) {
        assert k != key || i != f.part ==> PartAt(dir, k, i, after[k][i]);
      }
      if k == key { assert f.part in after[k]; }
    }
  }

  lemma SkipPart(dir: seq<LogFile>, f: LogFile, multi: Parts)
    requires GatheredParts(dir, multi) && !ValidPart(f)
    ensures GatheredParts(dir + [f], multi)
  {
    NextFile(dir, f);
    hide HasSingle, HasPart;
    forall k, i | k in multi && i in multi[k] ensures PartAt(dir + [f], k, i, multi[k][i]) {
      assert PartAt(dir, k, i, multi[k][i]);
    }
  }

  lemma PlaceSingle(dir: seq<LogFile>, f: LogFile, single: Option<(nat, seq<Row>)>)
    requires GatheredSingle(dir, single)
    ensures GatheredSingle(dir + [f],
      if f.SingleFile? && (single.None? || f.version > single.value.0) then Some((f.version, f.rows)) else single)
  {
    NextFile(dir, f);
    hide HasSingle, HasPart;
  }

  method GatherCheckpoints(dir: seq<LogFile>) returns (single: Option<(nat, seq<Row>)>, multi: Parts)
    ensures GatheredSingle(dir, single) && GatheredParts(dir, multi)
  {
    single, multi := None, map[];
    for n := 0 to |dir|
      invariant GatheredSingle(dir[..n], single) && GatheredParts(dir[..n], multi)
    {
      hide GatheredSingle, GatheredParts;
      var f := dir[n];
      assert dir[..n + 1] == dir[..n] + [f];
      PlaceSingle(dir[..n], f, single);
      if ValidPart(f) { PlacePart(dir[..n], f, multi); } else { SkipPart(dir[..n], f, multi); }
      match f
      case SingleFile(version, rows) =>
        if single.None? || version > single.value.0 { single := Some((version, rows)); }
      case PartFile(version, part, total, rows) =>
        if part < total {
          var key := (version, total);
          var have: map<nat, seq<Row>> := if key in multi then multi[key] else map[];
          multi := multi[key := have[part := rows]];
        }
      case CommitFile(_, _) =>
      case OtherFile =>
    }
    assert dir[..|dir|] == dir;
  }

  /** The greatest key, as an ordered map's last entry. */
  method LastKey(keys: set<(nat, nat)>) returns (last: (nat, nat))
    requires keys != {}
    ensures last in keys && forall k :: k in keys ==> KeyLe(k, last)
  {
    last :| last in keys;
    var rest := keys - {last};
    while rest != {}
      invariant rest <= keys && last in keys
      invariant forall k :: k in keys - rest ==> KeyLe(k, last)
    {
      var k :| k in rest;
      ghost var before := last;
      if !KeyLe(k, last) { last := k; }
      assert forall e :: KeyLe(e, before) ==> KeyLe(e, last);
      rest := rest - {k};
    }
  }

  lemma PartsKnown(dir: seq<LogFile>, multi: Parts, v: nat, total: nat)
    requires GatheredParts(dir, multi)
    ensures HasParts(dir, v, total) <==> (v, total) in multi
    ensures forall i: nat :: HasPart(dir, v, i, total) <==> (v, total) in multi && i in multi[(v, total)]
  {
    var key := (v, total);
    forall i: nat ensures HasPart(dir, v, i, total) <==> key in multi && i in multi[key] {
      if key in multi && i in multi[key] {
        assert PartAt(dir, key, i, multi[key][i]);
        var k :| 0 <= k < |dir| && dir[k] == PartFile(v, i, total, multi[key][i]);
        assert ValidPart(dir[k]);
      }
    }
    if key in multi {
      var i :| i in multi[key];
      assert HasPart(dir, v, i, total);
    }
  }

  ghost predicate NoSingles(dir: seq<LogFile>) { forall v: nat :: !HasSingle(dir, v) }

  ghost predicate NoParts(dir: seq<LogFile>) { forall v: nat, t: nat :: !HasParts(dir, v, t) }

  /** The newest single checkpoint shares its version with a multi-part one. */
  ghost predicate Contested(dir: seq<LogFile>) {
    exists v: nat, t: nat :: NewestSingle(dir, v) && HasParts(dir, v, t)
  }

  /** Only multi-part checkpoints, and the newest lacks a part. */
  ghost predicate Torn(dir: seq<LogFile>) {
    NoSingles(dir) && exists v: nat, t: nat, i: nat :: NewestParts(dir, v, t) && i < t && !HasPart(dir, v, i, t)
  }

  /** Exactly what a directory leads to. */
  ghost predicate Leads(dir: seq<LogFile>, r: Result<Option<Checkpoint>, DeltaError>) {
    && (r == Ok(None) <==> NoSingles(dir) && NoParts(dir))
    && (r == Err(BothShapes) <==> Contested(dir))
    && (r == Err(MissingParts) <==> Torn(dir))
    && (r.Ok? && r.value.Some? ==> Chosen(dir, r.value.value))
    && (r.Err? ==> r.error == BothShapes || r.error == MissingParts)
  }

  lemma SingleLeads(dir: seq<LogFile>, single: (nat, seq<Row>), multi: Parts)
    requires GatheredSingle(dir, Some(single)) && GatheredParts(dir, multi)
    ensures var contested := exists k :: k in multi && k.0 == single.0;
      Leads(dir, if contested then Err(BothShapes) else Ok(Some(Checkpoint(single.0, [single.1]))))
  {
    var i :| 0 <= i < |dir| && dir[i] == SingleFile(single.0, single.1);
    assert HasSingle(dir, single.0);
    assert NewestSingle(dir, single.0);
    hide HasSingle;
    if k :| k in multi && k.0 == single.0 {
      PartsKnown(dir, multi, k.0, k.1);
      assert NewestSingle(dir, single.0) && HasParts(dir, single.0, k.1);
    }
    if v: nat, t: nat :| NewestSingle(dir, v) && HasParts(dir, v, t) {
      PartsKnown(dir, multi, v, t);
      assert (v, t) in multi && (v, t).0 == single.0;
    }
  }

  lemma PartsLead(dir: seq<LogFile>, multi: Parts, key: (nat, nat))
    requires GatheredSingle(dir, None) && GatheredParts(dir, multi)
    requires key in multi && forall k :: k in multi ==> KeyLe(k, key)
    ensures NewestParts(dir, key.0, key.1)
    ensures Torn(dir) <==> exists i: nat :: i < key.1 && i !in multi[key]
  {
    PartsKnown(dir, multi, key.0, key.1);
    forall w: nat, u: nat | HasParts(dir, w, u) ensures KeyLe((w, u), key) {
      PartsKnown(dir, multi, w, u);
    }
    hide HasPart, HasParts;
    if v: nat, t: nat, i: nat :| NewestParts(dir, v, t) && i < t && !HasPart(dir, v, i, t) {
      assert v == key.0 && t == key.1;
    }
    if i: nat :| i < key.1 && i !in multi[key] {
      assert NewestParts(dir, key.0, key.1) && i < key.1 && !HasPart(dir, key.0, i, key.1);
    }
  }

  ghost predicate Benign(hint: Hint) { hint == NoHint || hint == Classic }

  method LatestCheckpoint(dir: seq<LogFile>, hint: Hint) returns (r: Result<Option<Checkpoint>, DeltaError>)
    ensures r == Err(BadHint) <==> hint == Unparsable
    ensures r == Err(V2Checkpoint) <==> hint == Sidecars
    ensures Benign(hint) ==> Leads(dir, r)
  {
    if hint == Unparsable { return Err(BadHint); }
    if hint == Sidecars { return Err(V2Checkpoint); }
    r := NewestCheckpoint(dir);
  }

  method NewestCheckpoint(dir: seq<LogFile>) returns (r: Result<Option<Checkpoint>, DeltaError>)
    ensures Leads(dir, r) && r != Err(BadHint) && r != Err(V2Checkpoint)
  {
    var single, multi := GatherCheckpoints(dir);
    hide GatheredSingle, GatheredParts, HasSingle, HasParts, HasPart, NewestSingle, NewestParts, Torn;
    if single.Some? {
      SingleLeads(dir, single.value, multi);
      var contested := exists k :: k in multi && k.0 == single.value.0;
      return if contested then Err(BothShapes) else Ok(Some(Checkpoint(single.value.0, [single.value.1])));
    }
    if multi.Keys == {} {
      NothingLeads(dir, multi);
      return Ok(None);
    }
    var key := LastKey(multi.Keys);
    var parts := multi[key];
    PartsLead(dir, multi, key);
    TornLeads(dir, multi, key);
    if exists i: nat :: i < key.1 && i !in parts { return Err(MissingParts); }
    r := Ok(Some(Checkpoint(key.0, seq(key.1, i requires 0 <= i < key.1 => parts[i]))));
    ChosenLeads(dir, multi, key, r.value.value);
  }

  lemma NothingLeads(dir: seq<LogFile>, multi: Parts)
    requires GatheredSingle(dir, None) && GatheredParts(dir, multi) && multi.Keys == {}
    ensures Leads(dir, Ok(None))
  {
    forall v: nat, t: nat ensures !HasParts(dir, v, t) { PartsKnown(dir, multi, v, t); }
  }

  lemma TornLeads(dir: seq<LogFile>, multi: Parts, key: (nat, nat))
    requires GatheredSingle(dir, None) && GatheredParts(dir, multi) && key in multi
    ensures NoSingles(dir) && !NoParts(dir) && !Contested(dir)
    ensures Torn(dir) ==> Leads(dir, Err(MissingParts))
  {
    PartsKnown(dir, multi, key.0, key.1);
    assert forall v: nat :: !NewestSingle(dir, v);
    hide HasPart, HasParts, Torn;
  }

  lemma ChosenLeads(dir: seq<LogFile>, multi: Parts, key: (nat, nat), c: Checkpoint)
    requires NoSingles(dir) && !NoParts(dir) && !Contested(dir) && !Torn(dir) && GatheredParts(dir, multi)
      && key in multi
    requires NewestParts(dir, key.0, key.1) && c.version == key.0 && |c.parts| == key.1
    requires forall i :: 0 <= i < key.1 ==> i in multi[key] && c.parts[i] == multi[key][i]
    ensures Leads(dir, Ok(Some(c)))
  {
    hide HasSingle, HasParts, HasPart, Torn, NewestParts;
    forall i | 0 <= i < key.1 ensures PartFile(c.version, i, |c.parts|, c.parts[i]) in dir {
      assert PartAt(dir, key, i, multi[key][i]);
    }
  }

  // ----- replaying

  function RowActions(r: Row): seq<Action> {
    if r.BadRow? then []
    else
      (if r.add.Some? then [Add(r.add.value.0, r.add.value.1)] else [])
      + (if r.remove.Some? then [Remove(r.remove.value)] else [])
      + (if r.meta.Some? then [MetaData(r.meta.value)] else [])
      + (if r.minReader.Some? then [Reader(r.minReader.value)] else [])
  }

  function RowsActions(rows: seq<Row>): seq<Action> {
    if rows == [] then [] else RowsActions(rows[..|rows| - 1]) + RowActions(rows[|rows| - 1])
  }

  function CheckpointActions(parts: seq<seq<Row>>): seq<Action> {
    if parts == [] then [] else CheckpointActions(parts[..|parts| - 1]) + RowsActions(parts[|parts| - 1])
  }

  method ReplayRows(rows: seq<Row>, t0: Table) returns (r: Result<Table, DeltaError>)
    ensures r == if BadRow in rows then Err(BadCheckpoint) else Ok(Replay(t0, RowsActions(rows)))
  {
    var t := t0;
    for i := 0 to |rows|
      invariant BadRow !in rows[..i] && t == Replay(t0, RowsActions(rows[..i]))
    {
      assert rows[..i + 1][..i] == rows[..i];
      var row := rows[i];
      if row.BadRow? { return Err(BadCheckpoint); }
      RowReplays(t, row);
      ReplayConcat(t0, RowsActions(rows[..i]), RowActions(row));
      if row.add.Some? { t := t.(files := t.files[row.add.value.0 := row.add.value.1]); }
      if row.remove.Some? { t := t.(files := t.files - {row.remove.value}); }
      if row.meta.Some? { t := t.(meta := Some(row.meta.value)); }
      if t.protocol.None? && row.minReader.Some? { t := t.(protocol := Some(VersionOnly(row.minReader.value))); }
    }
    assert rows[..|rows|] == rows;
    r := Ok(t);
  }

  lemma RowReplays(t: Table, r: Row)
    requires r.Row?
    ensures var a := if r.add.Some? then t.(files := t.files[r.add.value.0 := r.add.value.1]) else t;
      var b := if r.remove.Some? then a.(files := a.files - {r.remove.value}) else a;
      var c := if r.meta.Some? then b.(meta := Some(r.meta.value)) else b;
      Replay(t, RowActions(r)) ==
        if c.protocol.None? && r.minReader.Some? then c.(protocol := Some(VersionOnly(r.minReader.value))) else c
  {
    var a := if r.add.Some? then [Add(r.add.value.0, r.add.value.1)] else [];
    var b := if r.remove.Some? then [Remove(r.remove.value)] else [];
    var c := if r.meta.Some? then [MetaData(r.meta.value)] else [];
    var d := if r.minReader.Some? then [Reader(r.minReader.value)] else [];
    var (ta, tb, tc) := (Replay(t, a), Replay(t, a + b), Replay(t, a + b + c));
    ReplayConcat(t, a + b + c, d);
    ReplayConcat(t, a + b, c);
    ReplayConcat(t, a, b);
    ReplayFew(t, a);
    ReplayFew(ta, b);
    ReplayFew(tb, c);
    ReplayFew(tc, d);
    assert RowActions(r) == a + b + c + d;
    hide Replay;
  }

  lemma {:induction false} ReplayFew(t: Table, few: seq<Action>)
    ensures few == [] ==> Replay(t, few) == t
    ensures |few| == 1 ==> Replay(t, few) == Apply(t, few[0])
  {
    if |few| == 1 { assert few[..0] == []; }
  }

  // ----- a checkpoint, row by row

  /** The row is in some part. */
  ghost predicate InParts(parts: seq<seq<Row>>, row: Row) {
    exists i :: 0 <= i < |parts| && row in parts[i]
  }

  /** The row sets this action in one of its columns. */
  predicate Sets(row: Row, a: Action) {
    row.Row? &&
    match a
    case Add(path, partition) => row.add == Some((path, partition))
    case Remove(path) => row.remove == Some(path)
    case MetaData(meta) => row.meta == Some(meta)
    case Reader(v) => row.minReader == Some(v)
    case _ => false
  }

  lemma RowSets(row: Row, a: Action)
    ensures a in RowActions(row) <==> Sets(row, a)
  {
  }

  lemma {:induction false} RowsSet(rows: seq<Row>, a: Action)
    ensures a in RowsActions(rows) <==> exists row :: row in rows && Sets(row, a)
  {
    if rows != [] {
      var n := |rows| - 1;
      RowsSet(rows[..n], a);
      RowSets(rows[n], a);
      assert rows == rows[..n] + [rows[n]];
      hide RowActions, Sets;
    }
  }

  /** An action is replayed from a checkpoint if and only if some row of some part sets it. */
  lemma {:induction false} ActionsAreRows(parts: seq<seq<Row>>, a: Action)
    ensures a in CheckpointActions(parts) <==> exists row :: InParts(parts, row) && Sets(row, a)
  {
    if parts != [] {
      var n := |parts| - 1;
      ActionsAreRows(parts[..n], a);
      RowsSet(parts[n], a);
      forall row ensures InParts(parts, row) <==> InParts(parts[..n], row) || row in parts[n] { PartsStep(parts, row); }
      hide InParts, Sets, RowsActions;
    }
  }

  lemma PartsStep(parts: seq<seq<Row>>, row: Row)
    requires parts != []
    ensures InParts(parts, row) <==> InParts(parts[..|parts| - 1], row) || row in parts[|parts| - 1]
  {
    var n := |parts| - 1;
    if InParts(parts[..n], row) {
      var i :| 0 <= i < n && row in parts[..n][i];
      assert row in parts[i];
    }
    if InParts(parts, row) && row !in parts[n] {
      var i :| 0 <= i < |parts| && row in parts[i];
      assert row in parts[..n][i];
    }
  }

  /** The rows describe the table: none contradicts it, every live file is the add of some row, and so are its metadata
      and its reader version stated. */
  ghost predicate FaithfulRows(parts: seq<seq<Row>>, t: Table) {
    && (forall row :: InParts(parts, row) && row.Row? ==>
          && (row.add.Some? ==> row.add.value.0 in t.files && t.files[row.add.value.0] == row.add.value.1)
          && (row.remove.Some? ==> row.remove.value !in t.files)
          && (row.meta.Some? ==> t.meta == row.meta)
          && (row.minReader.Some? ==> Version(t) == row.minReader))
    && (forall p :: p in t.files ==> exists row :: InParts(parts, row) && row.Row? && row.add == Some((p, t.files[p])))
    && (t.meta.Some? ==> exists row :: InParts(parts, row) && row.Row? && row.meta == t.meta)
    && (Version(t).Some? ==> exists row :: InParts(parts, row) && row.Row? && row.minReader == Version(t))
  }

  lemma {:induction false} FaithfulRowsReplay(parts: seq<seq<Row>>, t: Table)
    requires FaithfulRows(parts, t)
    ensures Faithful(CheckpointActions(parts), t)
  {
    var acts := CheckpointActions(parts);
    hide CheckpointActions, InParts;
    forall i | 0 <= i < |acts| ensures FaithfulAction(acts[i], t) {
      ActionsAreRows(parts, acts[i]);
      var row :| InParts(parts, row) && Sets(row, acts[i]);
    }
    forall p | p in t.files ensures Add(p, t.files[p]) in acts {
      ActionsAreRows(parts, Add(p, t.files[p]));
      var row :| InParts(parts, row) && row.Row? && row.add == Some((p, t.files[p]));
      assert Sets(row, Add(p, t.files[p]));
    }
    if t.meta.Some? {
      ActionsAreRows(parts, MetaData(t.meta.value));
      var row :| InParts(parts, row) && row.Row? && row.meta == t.meta;
      assert Sets(row, MetaData(t.meta.value));
    }
    if Version(t).Some? {
      ActionsAreRows(parts, Reader(Version(t).value));
      var row :| InParts(parts, row) && row.Row? && row.minReader == Version(t);
      assert Sets(row, Reader(Version(t).value));
    }
  }

  /** Row `i` is the last to name the path, and adds it. A row that also removes it removes it. */
  ghost predicate LastRowAdds(rows: seq<Row>, i: nat, path: string, partition: string) {
    && i < |rows| && rows[i].Row? && rows[i].add == Some((path, partition)) && rows[i].remove != Some(path)
    && forall j :: i < j < |rows| ==> !RowNames(rows[j], path)
  }

  ghost predicate SomeRowAdds(rows: seq<Row>, path: string, partition: string) {
    exists i: nat :: LastRowAdds(rows, i, path, partition)
  }

  predicate RowNames(row: Row, path: string) {
    row.Row? && ((row.add.Some? && row.add.value.0 == path) || row.remove == Some(path))
  }

  lemma {:induction false} PartsAreRows(parts: seq<seq<Row>>)
    ensures CheckpointActions(parts) == RowsActions(Flat(parts))
  {
    if parts != [] {
      PartsAreRows(parts[..|parts| - 1]);
      assert Flat(parts) == Flat(parts[..|parts| - 1]) + parts[|parts| - 1];
      RowsConcat(Flat(parts[..|parts| - 1]), parts[|parts| - 1]);
      hide RowsActions;
    }
  }

  lemma {:induction false} RowsUnfold(rows: seq<Row>)
    requires rows != []
    ensures RowsActions(rows) == RowsActions(rows[..|rows| - 1]) + RowActions(rows[|rows| - 1])
  {
  }

  lemma {:induction false} RowsConcat(a: seq<Row>, b: seq<Row>)
    ensures RowsActions(a + b) == RowsActions(a) + RowsActions(b)
  {
    hide RowActions, RowsActions;
    if b == [] {
      assert a + b == a;
      NoRowActions();
    } else {
      var (n, ab) := (|b| - 1, a + b);
      assert ab[..|ab| - 1] == a + b[..n] && ab[|ab| - 1] == b[n];
      RowsConcat(a, b[..n]);
      RowsUnfold(ab);
      RowsUnfold(b);
    }
  }

  lemma NoRowActions()
    ensures RowsActions([]) == []
  {
  }

  /** From a checkpoint a file is live, with a given partition, if and only if the last of all its rows, part after
      part, to name the path is one that adds it. */
  lemma {:induction false} CheckpointLive(parts: seq<seq<Row>>, path: string, partition: string)
    ensures var files := Replay(EMPTY, CheckpointActions(parts)).files;
      path in files && files[path] == partition <==> exists i: nat :: LastRowAdds(Flat(parts), i, path, partition)
  {
    PartsAreRows(parts);
    RowsLive(Flat(parts), path, partition);
  }

  /** What one row does to one path. */
  lemma {:induction false} RowDecides(t: Table, row: Row, path: string)
    ensures var files := Replay(t, RowActions(row)).files;
      if !RowNames(row, path) then
        (path in files <==> path in t.files) && (path in files ==> files[path] == t.files[path])
      else if row.remove == Some(path) then path !in files
      else path in files && row.add == Some((path, files[path]))
  {
    if row.Row? { RowReplays(t, row); } else { assert Replay(t, []) == t; }
    hide Replay, RowActions;
  }

  lemma {:induction false} RowsLive(rows: seq<Row>, path: string, partition: string)
    ensures var files := Replay(EMPTY, RowsActions(rows)).files;
      path in files && files[path] == partition <==> SomeRowAdds(rows, path, partition)
  {
    if rows == [] {
      assert RowsActions(rows) == [];
    } else {
      hide RowsActions, Replay, RowActions, SomeRowAdds, RowNames;
      var (n, before) := (|rows| - 1, rows[..|rows| - 1]);
      RowsLive(before, path, partition);
      RowsUnfold(rows);
      ReplayConcat(EMPTY, RowsActions(before), RowActions(rows[n]));
      RowDecides(Replay(EMPTY, RowsActions(before)), rows[n], path);
      LastRowMoves(rows, path, partition);
    }
  }

  lemma LastRowMoves(rows: seq<Row>, path: string, partition: string)
    requires rows != []
    ensures var (n, row) := (|rows| - 1, rows[|rows| - 1]);
      SomeRowAdds(rows, path, partition) <==>
        if RowNames(row, path) then row.remove != Some(path) && row.add == Some((path, partition))
        else SomeRowAdds(rows[..n], path, partition)
  {
    var (n, row) := (|rows| - 1, rows[|rows| - 1]);
    if RowNames(row, path) {
      if row.add == Some((path, partition))
        && row.remove != Some(path) { assert LastRowAdds(rows, n, path, partition); }
    } else {
      if i: nat :| LastRowAdds(rows[..n], i, path, partition) { assert LastRowAdds(rows, i, path, partition); }
      if i: nat :| LastRowAdds(rows, i, path, partition) { assert LastRowAdds(rows[..n], i, path, partition); }
    }
  }

  ghost predicate AnyBadRow(parts: seq<seq<Row>>) {
    exists i :: 0 <= i < |parts| && BadRow in parts[i]
  }

  predicate Mapped(t: Table) { t.meta.Some? && t.meta.value.mapped }

  /** Replays every part, refusing an unreadable row, and a table whose columns were mapped by then. */
  method ReplayCheckpoint(c: Checkpoint) returns (r: Result<Table, DeltaError>)
    ensures var t := Replay(EMPTY, CheckpointActions(c.parts));
      r == if AnyBadRow(c.parts) then Err(BadCheckpoint) else if Mapped(t) then Err(ColumnMapping) else Ok(t)
  {
    hide Replay, RowsActions;
    var t := EMPTY;
    NothingReplays(EMPTY);
    for i := 0 to |c.parts|
      invariant forall k :: 0 <= k < i ==> BadRow !in c.parts[k]
      invariant t == Replay(EMPTY, CheckpointActions(c.parts[..i]))
    {
      assert c.parts[..i + 1][..i] == c.parts[..i];
      ReplayConcat(EMPTY, CheckpointActions(c.parts[..i]), RowsActions(c.parts[i]));
      var part := ReplayRows(c.parts[i], t);
      if part.Err? { return part; }
      t := part.value;
    }
    assert c.parts[..|c.parts|] == c.parts;
    r := if Mapped(t) then Err(ColumnMapping) else Ok(t);
  }

  method ApplyCommit(acts: seq<Action>, t0: Table) returns (r: Result<Table, DeltaError>)
    ensures r == if Malformed in acts then Err(BadAction) else Ok(Replay(t0, acts))
  {
    var t := t0;
    for i := 0 to |acts|
      invariant Malformed !in acts[..i] && t == Replay(t0, acts[..i])
    {
      assert acts[..i + 1][..i] == acts[..i];
      match acts[i]
      case Add(path, partition) => t := t.(files := t.files[path := partition]);
      case Remove(path) => t := t.(files := t.files - {path});
      case MetaData(meta) => t := t.(meta := Some(meta));
      case Protocol(protocol) => t := t.(protocol := Some(protocol));
      case Reader(_) => t := Apply(t, acts[i]);
      case Ignored =>
      case Malformed => return Err(BadAction);
    }
    assert acts[..|acts|] == acts;
    r := Ok(t);
  }

  // ----- the scan

  predicate Ascending(a: nat, b: nat) { a <= b }

  function Versions(dir: seq<LogFile>): seq<nat> {
    if dir == [] then []
    else
      var f := dir[|dir| - 1];
      Versions(dir[..|dir| - 1]) + if f.CommitFile? then [f.version] else []
  }

  /** Commits by version. */
  function Commits(dir: seq<LogFile>): map<nat, seq<Action>> {
    if dir == [] then map[]
    else
      var (before, f) := (Commits(dir[..|dir| - 1]), dir[|dir| - 1]);
      if f.CommitFile? then before[f.version := f.acts] else before
  }

  lemma {:induction false} VersionsAreCommits(dir: seq<LogFile>)
    ensures forall v: nat :: v in Versions(dir) <==> v in Commits(dir)
    ensures forall v: nat :: v in Commits(dir) ==> CommitFile(v, Commits(dir)[v]) in dir
  {
    if dir != [] {
      VersionsAreCommits(dir[..|dir| - 1]);
      assert dir == dir[..|dir| - 1] + [dir[|dir| - 1]];
    }
  }

  ghost predicate UniqueCommits(dir: seq<LogFile>) { Distinct(Versions(dir)) }

  function Selected(vs: seq<nat>, from: nat): seq<nat> {
    if vs == [] then []
    else Selected(vs[..|vs| - 1], from) + if vs[|vs| - 1] >= from then [vs[|vs| - 1]] else []
  }

  function ActionsOf(commits: map<nat, seq<Action>>, vs: seq<nat>): (r: seq<seq<Action>>)
    requires forall i :: 0 <= i < |vs| ==> vs[i] in commits
    ensures |r| == |vs| && forall i :: 0 <= i < |vs| ==> r[i] == commits[vs[i]]
  {
    seq(|vs|, i requires 0 <= i < |vs| => commits[vs[i]])
  }

  function ReplayFrom(c: Option<Checkpoint>): nat { if c.Some? then c.value.version + 1 else 0 }

  function Base(c: Option<Checkpoint>): Table {
    if c.Some? then Replay(EMPTY, CheckpointActions(c.value.parts)) else EMPTY
  }

  /** The versions a scan applies, in order. */
  function Applied(dir: seq<LogFile>, c: Option<Checkpoint>): seq<nat> {
    Selected(StableSort(Versions(dir), Ascending), ReplayFrom(c))
  }

  lemma {:induction false} SelectedKeeps(vs: seq<nat>, from: nat)
    ensures forall v :: v in Selected(vs, from) <==> v in vs && v >= from
    ensures Distinct(vs) && Sorted(vs, Ascending) ==> Increasing(Selected(vs, from))
  {
    if vs != [] {
      var n := |vs| - 1;
      SelectedKeeps(vs[..n], from);
      assert vs == vs[..n] + [vs[n]];
      if Distinct(vs) && Sorted(vs, Ascending) {
        assert Distinct(vs[..n]) && Sorted(vs[..n], Ascending);
        forall v | v in Selected(vs[..n], from) ensures v < vs[n] {
          var i :| 0 <= i < n && vs[..n][i] == v;
          assert Ascending(vs[i], vs[n]);
        }
        IncreasingAppend(Selected(vs[..n], from), vs[n]);
      }
    }
  }

  lemma IncreasingAppend(vs: seq<nat>, x: nat)
    requires Increasing(vs) && forall v :: v in vs ==> v < x
    ensures Increasing(vs + [x])
  {
    forall i, j | 0 <= i < j < |vs| + 1 ensures (vs + [x])[i] < (vs + [x])[j] {
      if j == |vs| { assert vs[i] in vs; }
    }
  }

  ghost predicate Increasing(vs: seq<nat>) { forall i, j :: 0 <= i < j < |vs| ==> vs[i] < vs[j] }

  lemma {:induction false} AppliedAreCommits(dir: seq<LogFile>, c: Option<Checkpoint>)
    ensures forall v: nat :: v in Applied(dir, c) <==> v in Commits(dir) && v >= ReplayFrom(c)
    ensures UniqueCommits(dir) ==> Increasing(Applied(dir, c))
  {
    var sorted := StableSort(Versions(dir), Ascending);
    VersionsAreCommits(dir);
    SelectedKeeps(sorted, ReplayFrom(c));
    AscendingIsOrder();
    StableSortSorts(Versions(dir), Ascending);
    forall v: nat ensures v in sorted <==> v in Versions(dir) {
      assert v in sorted <==> v in multiset(sorted);
      assert v in Versions(dir) <==> v in multiset(Versions(dir));
    }
    if UniqueCommits(dir) { RearrangedDistinct(Versions(dir), sorted); }
    hide StableSort, Versions, Commits, Selected;
  }

  lemma AscendingIsOrder()
    ensures TotalPreorder(Ascending)
  {
  }

  /** The table a scan arrives at from this checkpoint. */
  function Scanned(dir: seq<LogFile>, c: Option<Checkpoint>): Table {
    AppliedAreCommits(dir, c);
    Replay(Base(c), Flat(ActionsOf(Commits(dir), Applied(dir, c))))
  }

  ghost predicate AnyMalformed(dir: seq<LogFile>, c: Option<Checkpoint>) {
    exists v: nat :: v in Commits(dir) && v >= ReplayFrom(c) && Malformed in Commits(dir)[v]
  }

  method ListCommits(dir: seq<LogFile>) returns (versions: seq<nat>, commits: map<nat, seq<Action>>)
    ensures versions == Versions(dir) && commits == Commits(dir)
  {
    versions, commits := [], map[];
    for i := 0 to |dir|
      invariant versions == Versions(dir[..i]) && commits == Commits(dir[..i])
    {
      assert dir[..i + 1][..i] == dir[..i];
      if dir[i].CommitFile? {
        versions := versions + [dir[i].version];
        commits := commits[dir[i].version := dir[i].acts];
      }
    }
    assert dir[..|dir|] == dir;
  }

  /** Replays the chosen commits on top of the checkpoint. */
  method ApplyCommits(dir: seq<LogFile>, commits: map<nat, seq<Action>>, c: Option<Checkpoint>, vs: seq<nat>,
      base: Table)
    returns (r: Result<Table, DeltaError>)
    requires commits == Commits(dir) && vs == Applied(dir, c) && base == Base(c)
    ensures r == if AnyMalformed(dir, c) then Err(BadAction) else Ok(Scanned(dir, c))
  {
    AppliedAreCommits(dir, c);
    hide Applied, Commits, Base, Replay, AnyMalformed, Flat;
    var t := base;
    NothingReplays(base);
    assert ActionsOf(commits, vs)[..0] == [];
    for i := 0 to |vs|
      invariant t == Replay(base, Flat(ActionsOf(commits, vs)[..i]))
      invariant forall k :: 0 <= k < i ==> Malformed !in commits[vs[k]]
    {
      var all := ActionsOf(commits, vs);
      FlatStep(all, i);
      ReplayConcat(base, Flat(all[..i]), all[i]);
      var next := ApplyCommit(commits[vs[i]], t);
      if next.Err? {
        MalformedFound(dir, c, vs[i]);
        return next;
      }
      t := next.value;
    }
    NoneMalformed(dir, c, vs);
    assert ActionsOf(commits, vs)[..|vs|] == ActionsOf(commits, vs);
    r := Ok(t);
  }

  lemma {:induction false} MalformedFound(dir: seq<LogFile>, c: Option<Checkpoint>, v: nat)
    requires v in Commits(dir) && v >= ReplayFrom(c) && Malformed in Commits(dir)[v]
    ensures AnyMalformed(dir, c)
  {
  }

  lemma {:induction false} NoneMalformed(dir: seq<LogFile>, c: Option<Checkpoint>, vs: seq<nat>)
    requires forall v: nat :: v in vs <==> v in Commits(dir) && v >= ReplayFrom(c)
    requires forall k :: 0 <= k < |vs| ==> Malformed !in Commits(dir)[vs[k]]
    ensures !AnyMalformed(dir, c)
  {
    hide Commits;
    forall v: nat | v in Commits(dir) && v >= ReplayFrom(c) ensures Malformed !in Commits(dir)[v] {
      assert v in vs;
    }
  }

  lemma {:induction false} NothingReplays(t: Table)
    ensures Flat<Action>([]) == [] && Replay(t, []) == t
  {
  }

  /** What the protocol refuses: a feature first, then the version, which is 1 unless stated. */
  function Refusal(protocol: Option<Protocol>): Option<DeltaError> {
    if protocol.None? then None
    else if "deletionVectors" in protocol.value.Features() then Some(Feature("deletionVectors"))
    else if "v2Checkpoint" in protocol.value.Features() then Some(Feature("v2Checkpoint"))
    else if protocol.value.minReader.Some? && protocol.value.minReader.value > 2 then Some(NewerReader)
    else None
  }

  /** The scan gets past listing and choosing, and replays from `c`. */
  ghost predicate Begun(dir: seq<LogFile>, hint: Hint, c: Option<Checkpoint>) {
    Versions(dir) != [] && Benign(hint) && Leads(dir, Ok(c)) && (c.None? ==> 0 in Versions(dir))
  }

  /** The checkpoint, if any, replays. */
  ghost predicate Starts(c: Option<Checkpoint>) {
    c.Some? ==> !AnyBadRow(c.value.parts) && !Mapped(Base(c))
  }

  /** And every commit after it does. */
  ghost predicate Replays(dir: seq<LogFile>, c: Option<Checkpoint>) { Starts(c) && !AnyMalformed(dir, c) }

  /** Nothing stands against a scan from this checkpoint. */
  ghost predicate Accepted(dir: seq<LogFile>, hint: Hint, c: Option<Checkpoint>) {
    Begun(dir, hint, c) && Stands(dir, c)
  }

  ghost predicate Stands(dir: seq<LogFile>, c: Option<Checkpoint>) {
    var t := Scanned(dir, c);
    Replays(dir, c) && t.meta.Some? && Refusal(t.protocol).None? && !Mapped(t)
  }

  /** Mapped columns as of the checkpoint, or as of the end. */
  ghost predicate MappingRefuses(dir: seq<LogFile>, c: Option<Checkpoint>) {
    || (c.Some? && !AnyBadRow(c.value.parts) && Mapped(Base(c)))
    || (Replays(dir, c) && Refusal(Scanned(dir, c).protocol).None? && Mapped(Scanned(dir, c)))
  }

  ghost predicate ProtocolRefuses(dir: seq<LogFile>, c: Option<Checkpoint>, e: DeltaError) {
    Replays(dir, c) && Scanned(dir, c).meta.Some? && Refusal(Scanned(dir, c).protocol) == Some(e)
  }

  /** `c` is the checkpoint the scan chose, when it got that far. */
  method ScanTable(dir: seq<LogFile>, hint: Hint) returns (r: Result<Scan, DeltaError>, ghost c: Option<Checkpoint>)
    ensures r == Err(NoCommits) <==> Versions(dir) == []
    ensures r == Err(BadHint) <==> Versions(dir) != [] && hint == Unparsable
    ensures r == Err(V2Checkpoint) <==> Versions(dir) != [] && hint == Sidecars
    ensures r == Err(BothShapes) <==> Versions(dir) != [] && Benign(hint) && Contested(dir)
    ensures r == Err(MissingParts) <==> Versions(dir) != [] && Benign(hint) && Torn(dir)
    ensures r == Err(LogIncomplete) <==>
      Versions(dir) != [] && Benign(hint) && NoSingles(dir) && NoParts(dir) && 0 !in Versions(dir)
    ensures r == Err(BadCheckpoint) <==> Begun(dir, hint, c) && c.Some? && AnyBadRow(c.value.parts)
    ensures r == Err(BadAction) <==> Begun(dir, hint, c) && Starts(c) && AnyMalformed(dir, c)
    ensures r == Err(NoMetaData) <==> Begun(dir, hint, c) && Replays(dir, c) && Scanned(dir, c).meta.None?
    ensures r == Err(NewerReader) <==> Begun(dir, hint, c) && ProtocolRefuses(dir, c, NewerReader)
    ensures forall name :: r == Err(Feature(name)) <==> Begun(dir, hint, c) && ProtocolRefuses(dir, c, Feature(name))
    ensures r == Err(ColumnMapping) <==> Begun(dir, hint, c) && MappingRefuses(dir, c)
    ensures r.Ok? <==> Accepted(dir, hint, c)
    ensures r.Ok? ==>
      Scanned(dir, c).files == r.value.files && Scanned(dir, c).meta == Some(Meta(r.value.tableId, false))
    ensures r.Ok? ==> r.value.version in Versions(dir) && forall v :: v in Versions(dir) ==> v <= r.value.version
  {
    c := None;
    hide Versions, Commits, Leads, Contested, Torn, Chosen, AnyMalformed, AnyBadRow, Scanned, StableSort, Stands,
      Starts,
      Replays, ProtocolRefuses, MappingRefuses, Mapped;
    var listed, commits := ListCommits(dir);
    if listed == [] {
      return Err(NoCommits), c;
    }
    var chosen := LatestCheckpoint(dir, hint);
    if chosen.Err? {
      if Benign(hint) { LeadsApart(dir, chosen, c); }
      return Err(chosen.error), c;
    }
    c := chosen.value;
    LeadsApart(dir, chosen, c);
    var versions := StableSort(listed, Ascending);
    NewestLast(listed);
    if chosen.value.None? && 0 !in versions { return Err(LogIncomplete), c; }
    r := ScanFrom(dir, commits, versions, chosen.value);
  }

  /** The rest of the scan, from the checkpoint chosen. */
  method ScanFrom(dir: seq<LogFile>, commits: map<nat, seq<Action>>, versions: seq<nat>, c: Option<Checkpoint>)
    returns (r: Result<Scan, DeltaError>)
    requires commits == Commits(dir) && versions == StableSort(Versions(dir), Ascending) && versions != []
    ensures r == Err(BadCheckpoint) <==> c.Some? && AnyBadRow(c.value.parts)
    ensures r == Err(BadAction) <==> Starts(c) && AnyMalformed(dir, c)
    ensures r == Err(NoMetaData) <==> Replays(dir, c) && Scanned(dir, c).meta.None?
    ensures r == Err(NewerReader) <==> ProtocolRefuses(dir, c, NewerReader)
    ensures forall name :: r == Err(Feature(name)) <==> ProtocolRefuses(dir, c, Feature(name))
    ensures r == Err(ColumnMapping) <==> MappingRefuses(dir, c)
    ensures r.Ok? <==> Stands(dir, c)
    ensures r.Ok? ==>
      Scanned(dir, c).files == r.value.files && Scanned(dir, c).meta == Some(Meta(r.value.tableId, false))
    ensures r.Ok? ==> r.value.version == versions[|versions| - 1]
    ensures r.Err? ==> !(r.error in {NoCommits, BadHint, V2Checkpoint, BothShapes, MissingParts, LogIncomplete})
  {
    hide Versions, Commits, AnyMalformed, AnyBadRow, Scanned, Base, StableSort, Selected, Refusal;
    var base := StartingTable(c);
    if base.Err? { return Err(base.error); }
    var selected := SelectVersions(versions, ReplayFrom(c));
    var t := ApplyCommits(dir, commits, c, selected, base.value);
    if t.Err? { return Err(t.error); }
    if t.value.meta.None? { return Err(NoMetaData); }
    var refusal := Refusal(t.value.protocol);
    RefusalKind(t.value.protocol);
    if refusal.Some? { return Err(refusal.value); }
    if Mapped(t.value) { return Err(ColumnMapping); }
    r := Ok(Scan(t.value.meta.value.id, versions[|versions| - 1], t.value.files));
  }

  lemma RefusalKind(p: Option<Protocol>)
    ensures Refusal(p).Some? ==> Refusal(p).value.Feature? || Refusal(p).value.NewerReader?
  {
  }

  method StartingTable(c: Option<Checkpoint>) returns (r: Result<Table, DeltaError>)
    ensures r.Ok? <==> Starts(c)
    ensures r.Ok? ==> r.value == Base(c)
    ensures r.Err? ==> c.Some? && r == Err(if AnyBadRow(c.value.parts) then BadCheckpoint else ColumnMapping)
  {
    if c.Some? { r := ReplayCheckpoint(c.value); } else { r := Ok(EMPTY); }
  }

  method SelectVersions(versions: seq<nat>, from: nat) returns (r: seq<nat>)
    ensures r == Selected(versions, from)
  {
    r := [];
    for i := 0 to |versions|
      invariant r == Selected(versions[..i], from)
    {
      assert versions[..i + 1][..i] == versions[..i];
      if versions[i] >= from { r := r + [versions[i]]; }
    }
    assert versions[..|versions|] == versions;
  }

  lemma {:induction false} NewestLast(vs: seq<nat>)
    requires vs != []
    ensures var sorted := StableSort(vs, Ascending);
      && (forall v :: v in sorted <==> v in vs)
      && forall v :: v in vs ==> v <= sorted[|sorted| - 1]
  {
    var sorted := StableSort(vs, Ascending);
    AscendingIsOrder();
    StableSortSorts(vs, Ascending);
    forall v ensures v in sorted <==> v in vs {
      assert v in sorted <==> v in multiset(sorted);
      assert v in vs <==> v in multiset(vs);
    }
    forall v | v in vs ensures v <= sorted[|sorted| - 1] {
      var i :| 0 <= i < |sorted| && sorted[i] == v;
      assert i < |sorted| - 1 ==> Ascending(sorted[i], sorted[|sorted| - 1]);
    }
  }

  lemma LeadsApart(dir: seq<LogFile>, r: Result<Option<Checkpoint>, DeltaError>, c: Option<Checkpoint>)
    requires Leads(dir, r)
    ensures r == Err(BothShapes) <==> Contested(dir)
    ensures r == Err(MissingParts) <==> Torn(dir)
    ensures r == Ok(None) <==> NoSingles(dir) && NoParts(dir)
    ensures r.Ok? && r.value.Some? ==> Chosen(dir, r.value.value)
    ensures r.Err? ==> (r == Err(BothShapes) || r == Err(MissingParts)) && !Leads(dir, Ok(c))
  {
    hide Contested, Torn, Chosen;
  }

  // ----- which checkpoint was used does not matter

  /** A commit file of this version is there. */
  ghost predicate HasCommit(dir: seq<LogFile>, v: nat) {
    exists i :: 0 <= i < |dir| && dir[i].CommitFile? && dir[i].version == v
  }

  /** No two commit files share a version, as file names ensure. */
  ghost predicate Apart(dir: seq<LogFile>) {
    forall i, j :: 0 <= i < j < |dir| && dir[i].CommitFile? && dir[j].CommitFile? ==> dir[i].version != dir[j].version
  }

  /** The directory's commit files are the table's own, one of a version, and the checkpoint's rows describe
      the table as of its version. */
  ghost predicate Records(dir: seq<LogFile>, history: seq<seq<Action>>, c: Option<Checkpoint>) {
    && Apart(dir)
    && (forall v: nat :: v < |history| ==> CommitActions(history[v]))
    && (forall i :: 0 <= i < |dir| && dir[i].CommitFile? ==>
          dir[i].version < |history| && dir[i].acts == history[dir[i].version])
    && (c.Some? ==>
          c.value.version < |history| && FaithfulRows(c.value.parts, TableAt(history, c.value.version + 1)))
  }

  /** No commit after the checkpoint has been lost. */
  ghost predicate Complete(dir: seq<LogFile>, history: seq<seq<Action>>, c: Option<Checkpoint>) {
    forall v: nat :: ReplayFrom(c) <= v < |history| ==> HasCommit(dir, v)
  }

  /** What the listing loop collects is what the directory holds. */
  lemma {:induction false} ListingIsTheFiles(dir: seq<LogFile>)
    ensures forall v: nat :: v in Versions(dir) <==> HasCommit(dir, v)
    ensures forall v: nat :: v in Commits(dir) <==> HasCommit(dir, v)
    ensures Apart(dir) ==> Distinct(Versions(dir))
  {
    VersionsAreCommits(dir);
    if dir != [] {
      var n := |dir| - 1;
      ListingIsTheFiles(dir[..n]);
      forall v: nat
        ensures HasCommit(dir, v) <==> HasCommit(dir[..n], v) || (dir[n].CommitFile? && dir[n].version == v)
      {
        HasCommitStep(dir, v);
      }
      if Apart(dir) {
        assert Apart(dir[..n]);
        if dir[n].CommitFile? { assert !HasCommit(dir[..n], dir[n].version); }
      }
      hide HasCommit, Apart, Commits;
    }
  }

  lemma HasCommitStep(dir: seq<LogFile>, v: nat)
    requires dir != []
    ensures var n := |dir| - 1;
      HasCommit(dir, v) <==> HasCommit(dir[..n], v) || (dir[n].CommitFile? && dir[n].version == v)
  {
    var n := |dir| - 1;
    if HasCommit(dir[..n], v) {
      var i :| 0 <= i < n && dir[..n][i].CommitFile? && dir[..n][i].version == v;
      assert dir[i].CommitFile?;
    }
    if HasCommit(dir, v) && !(dir[n].CommitFile? && dir[n].version == v) {
      var i :| 0 <= i < |dir| && dir[i].CommitFile? && dir[i].version == v;
      assert dir[..n][i].CommitFile?;
    }
  }

  lemma {:induction false} RecordsListed(dir: seq<LogFile>, history: seq<seq<Action>>, c: Option<Checkpoint>)
    requires Records(dir, history, c)
    ensures UniqueCommits(dir)
    ensures forall v: nat :: v in Commits(dir) ==> v < |history| && Commits(dir)[v] == history[v]
    ensures c.Some? ==> Faithful(CheckpointActions(c.value.parts), TableAt(history, c.value.version + 1))
  {
    ListingIsTheFiles(dir);
    VersionsAreCommits(dir);
    hide Versions, Commits, Apart, CheckpointActions, FaithfulRows, Faithful, TableAt;
    if c.Some? { FaithfulRowsReplay(c.value.parts, TableAt(history, c.value.version + 1)); }
  }

  /** The last of an increasing listing of a range is the range's last. */
  lemma RangeEnds(vs: seq<nat>, lo: nat, hi: nat)
    requires Increasing(vs) && lo < hi && forall v: nat :: v in vs <==> lo <= v < hi
    ensures vs != [] && vs[|vs| - 1] == hi - 1
    ensures var front := vs[..|vs| - 1]; forall v: nat :: v in front <==> lo <= v < hi - 1
  {
    var last: nat := hi - 1;
    assert last in vs;
    var k :| 0 <= k < |vs| && vs[k] == last;
    var n := |vs| - 1;
    assert vs[n] in vs;
    assert k == n;
    var front := vs[..n];
    assert vs == front + [vs[n]];
    forall v: nat ensures v in front <==> lo <= v < last {
      assert v in vs <==> v in front || v == last;
      if v in front {
        var i :| 0 <= i < n && front[i] == v;
        assert vs[i] < vs[n];
      }
    }
  }

  lemma {:induction false} IncreasingRange(vs: seq<nat>, lo: nat, hi: nat)
    requires Increasing(vs) && lo <= hi && forall v: nat :: v in vs <==> lo <= v < hi
    ensures |vs| == hi - lo && forall i :: 0 <= i < |vs| ==> vs[i] == lo + i
    decreases hi - lo
  {
    if lo < hi {
      var n := |vs| - 1;
      RangeEnds(vs, lo, hi);
      assert Increasing(vs[..n]);
      IncreasingRange(vs[..n], lo, hi - 1);
    } else {
      EmptyRange(vs);
    }
  }

  lemma EmptyRange(vs: seq<nat>)
    requires forall v: nat :: v !in vs
    ensures vs == []
  {
    FirstIsIn(vs);
  }

  ghost function FirstOr(vs: seq<nat>): nat { if vs == [] then 0 else vs[0] }

  lemma FirstIsIn(vs: seq<nat>)
    ensures vs != [] ==> FirstOr(vs) in vs
  {
  }

  lemma LaterActions(history: seq<seq<Action>>, from: nat)
    requires from <= |history| && forall v: nat :: v < |history| ==> CommitActions(history[v])
    ensures CommitActions(Flat(history[from..]))
  {
    var later := Flat(history[from..]);
    forall i | 0 <= i < |later| ensures !later[i].Reader? {
      FlatMember(history[from..], later[i]);
      var v :| 0 <= v < |history[from..]| && later[i] in history[from..][v];
      assert history[from..][v] == history[from + v];
    }
  }

  lemma AppliedIsTheRest(dir: seq<LogFile>, history: seq<seq<Action>>, c: Option<Checkpoint>)
    requires Records(dir, history, c) && Complete(dir, history, c)
    ensures ReplayFrom(c) <= |history|
    ensures Scanned(dir, c) == Replay(Base(c), Flat(history[ReplayFrom(c)..]))
  {
    hide Applied, Commits, Versions, Faithful, FaithfulRows, Replay, CheckpointActions, HasCommit, Apart, Flat, Base;
    var (vs, from) := (Applied(dir, c), ReplayFrom(c));
    AppliedAreCommits(dir, c);
    RecordsListed(dir, history, c);
    ListingIsTheFiles(dir);
    assert from <= |history|;
    IncreasingRange(vs, from, |history|);
    assert ActionsOf(Commits(dir), vs) == history[from..];
  }

  /** The table a scan of this history arrives at: a protocol a checkpoint stands for keeps its version alone. */
  ghost function Seen(history: seq<seq<Action>>, c: Option<Checkpoint>): Table
    requires ReplayFrom(c) <= |history|
  {
    var t := TableAt(history, |history|);
    if c.None? || Restates(Flat(history[ReplayFrom(c)..])) then t else Kept(t)
  }

  /** With every later commit in place, a scan from any faithful checkpoint, single or in parts, gives the
      files and metadata that replaying the whole history gives, and the protocol as far as that was kept. */
  lemma ScanIsTheTable(dir: seq<LogFile>, history: seq<seq<Action>>, c: Option<Checkpoint>)
    requires Records(dir, history, c) && Complete(dir, history, c)
    ensures ReplayFrom(c) <= |history| && Scanned(dir, c) == Seen(history, c)
    ensures var t := TableAt(history, |history|); Scanned(dir, c).files == t.files && Scanned(dir, c).meta == t.meta
  {
    AppliedIsTheRest(dir, history, c);
    RecordsListed(dir, history, c);
    hide Scanned, Commits, Faithful, FaithfulRows, Replay, CheckpointActions, Restates, CommitActions, Apart;
    LaterActions(history, ReplayFrom(c));
    if c.Some? {
      CheckpointDoesNotMatter(history, ReplayFrom(c), CheckpointActions(c.value.parts));
    } else {
      assert history[0..] == history[..|history|];
    }
  }

  /** Whether mapped columns refuse the scan does depend on the checkpoint: a table that was mapped when the
      checkpoint was written is refused, even if a later commit ended the mapping. */
  lemma MappingRefusesIff(dir: seq<LogFile>, history: seq<seq<Action>>, c: Option<Checkpoint>)
    requires Records(dir, history, c) && Complete(dir, history, c)
    ensures Mapped(Scanned(dir, c)) <==> Mapped(TableAt(history, |history|))
    ensures c.Some? ==> (Mapped(Base(c)) <==> Mapped(TableAt(history, c.value.version + 1)))
  {
    ScanIsTheTable(dir, history, c);
    RecordsListed(dir, history, c);
    if c.Some? { FaithfulReplays(CheckpointActions(c.value.parts), TableAt(history, c.value.version + 1)); }
    hide Scanned, TableAt, Faithful, Commits, Versions;
  }

  /** A refused feature that the version does not refuse as well. */
  predicate RefusedByFeatureOnly(t: Table) {
    && t.protocol.Some? && Refusal(t.protocol).Some? && Refusal(t.protocol).value.Feature?
    && (t.protocol.value.minReader.None? || t.protocol.value.minReader.value <= 2)
  }

  /** Nor does every refusal of a protocol survive a checkpoint: a scan decides as the table's own protocol does,
      except where a checkpoint stands for a protocol that only a feature refuses. */
  lemma ProtocolRefusesIff(dir: seq<LogFile>, history: seq<seq<Action>>, c: Option<Checkpoint>)
    requires Records(dir, history, c) && Complete(dir, history, c)
    ensures var t := TableAt(history, |history|);
      (Refusal(Scanned(dir, c).protocol).Some? <==> Refusal(t.protocol).Some?) <==>
        !(c.Some? && !Restates(Flat(history[ReplayFrom(c)..])) && RefusedByFeatureOnly(t))
  {
    ScanIsTheTable(dir, history, c);
    hide Scanned, TableAt, Faithful, Commits, Versions, Restates, Records;
    KeptRefusal(TableAt(history, |history|));
  }

  lemma KeptRefusal(t: Table)
    ensures (Refusal(Kept(t).protocol).Some? <==> Refusal(t.protocol).Some?) <==> !RefusedByFeatureOnly(t)
  {
    if Version(t).Some? { assert VersionOnly(Version(t).value).Features() == {}; }
  }

  /** The version reported is the newest of the history if and only if that commit's own file is still there. */
  lemma {:induction false} VersionIsNewestIff(dir: seq<LogFile>, history: seq<seq<Action>>, c: Option<Checkpoint>,
      version: nat)
    requires Records(dir, history, c) && version in Versions(dir) && forall v :: v in Versions(dir) ==> v <= version
    ensures version < |history|
    ensures version == |history| - 1 <==> HasCommit(dir, |history| - 1)
  {
    ListingIsTheFiles(dir);
    hide Versions, Commits, FaithfulRows;
    var i :| 0 <= i < |dir| && dir[i].CommitFile? && dir[i].version == version;
  }

  // ----- and completeness is exactly what it takes

  lemma {:induction false} FreshPath(acts: seq<Action>) returns (p: string)
    ensures forall i :: 0 <= i < |acts| ==> (acts[i].Add? || acts[i].Remove? ==> |acts[i].path| < |p|)
  {
    p := "x";
    if acts != [] {
      var a := acts[|acts| - 1];
      p := FreshPath(acts[..|acts| - 1]);
      if a.Add? || a.Remove? { p := p + a.path + "x"; }
    }
  }

  ghost predicate Unnamed(acts: seq<Action>, p: string) {
    forall i :: 0 <= i < |acts| ==> !Names(acts[i], p)
  }

  lemma {:induction false} UnnamedStays(t: Table, acts: seq<Action>, p: string)
    requires Unnamed(acts, p)
    ensures p in Replay(t, acts).files <==> p in t.files
  {
    if acts != [] { UnnamedStays(t, acts[..|acts| - 1], p); }
  }

  lemma TwoFlat(a: seq<Action>, b: seq<Action>)
    ensures Flat([a, b]) == a + b && Flat([a]) == a
  {
    assert [a, b][..1] == [a] && [a][..0] == [];
    assert Flat<Action>([]) == [] && [] + a == a;
  }

  /** What commit `v` does to a path that no later commit names decides it. */
  lemma LoneAction(history: seq<seq<Action>>, v: nat, a: Action)
    requires v < |history| && (a.Add? || a.Remove?) && Unnamed(Flat(history[v + 1..]), a.path)
    ensures a.path in TableAt(history[v := [a]], |history|).files <==> a.Add?
  {
    var (h, before, after) := (history[v := [a]], Flat(history[..v]), Flat(history[v + 1..]));
    assert h[..|history|] == h == history[..v] + [[a]] + history[v + 1..];
    FlatConcat(history[..v] + [[a]], history[v + 1..]);
    FlatConcat(history[..v], [[a]]);
    TwoFlat([a], []);
    ReplayConcat(EMPTY, before + [a], after);
    assert (before + [a])[..|before|] == before;
    UnnamedStays(Replay(EMPTY, before + [a]), after, a.path);
  }

  lemma StillRecords(dir: seq<LogFile>, history: seq<seq<Action>>, c: Option<Checkpoint>, v: nat, acts: seq<Action>)
    requires Records(dir, history, c) && ReplayFrom(c) <= v < |history| && !HasCommit(dir, v) && CommitActions(acts)
    ensures Records(dir, history[v := acts], c)
  {
    hide FaithfulRows;
    if c.Some? {
      assert history[v := acts][..c.value.version + 1] == history[..c.value.version + 1];
    }
  }

  /** The same files, each as described, and the same metadata. */
  predicate SameTable(a: Table, b: Table) { a.files == b.files && a.meta == b.meta }

  /** With a commit missing, the directory is consistent with a history the scan gets wrong. So the scan is
      right for every history a directory records exactly when no commit after the checkpoint is lost. */
  lemma MissingCommitMatters(dir: seq<LogFile>, history: seq<seq<Action>>, c: Option<Checkpoint>)
    requires Records(dir, history, c)
    ensures Complete(dir, history, c) <==>
      forall h :: |h| == |history| && Records(dir, h, c) ==> SameTable(Scanned(dir, c), TableAt(h, |h|))
  {
    hide Records, Scanned, TableAt, HasCommit;
    if Complete(dir, history, c) {
      forall h | |h| == |history| && Records(dir, h, c) ensures SameTable(Scanned(dir, c), TableAt(h, |h|)) {
        ScanIsTheTable(dir, h, c);
      }
    } else {
      var v: nat :| ReplayFrom(c) <= v < |history| && !HasCommit(dir, v);
      var p := FreshPath(Flat(history[v + 1..]));
      StillRecords(dir, history, c, v, [Add(p, "")]);
      StillRecords(dir, history, c, v, [Remove(p)]);
      LoneAction(history, v, Add(p, ""));
      LoneAction(history, v, Remove(p));
      var (h, h') := (history[v := [Add(p, "")]], history[v := [Remove(p)]]);
      assert p in TableAt(h, |h|).files && p !in TableAt(h', |h'|).files;
    }
  }
}
