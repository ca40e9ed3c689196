/** Replaying a Delta transaction log: which files are live, whatever checkpoint the replay starts from. */
module DeltaLog {
  import opened Common

  /** A log action. `Ignored` stands for kinds a reader must skip; `Reader` is what a checkpoint keeps of a
      protocol action. */
  datatype Action =
    | Add(path: string, partition: string)
    | Remove(path: string)
    | MetaData(meta: Meta)
    | Protocol(protocol: Protocol)
    | Reader(minReader: int)
    | Ignored
    | Malformed

  /** The table's id, and whether its columns go by mapped names. */
  datatype Meta = Meta(id: string, mapped: bool)

  /** Feature lists and version, each as far as the action states it. */
  datatype Protocol = Protocol(readers: Option<set<string>>, writers: Option<set<string>>, minReader: Option<int>) {
    /** The features a reader looks at: the writers' only where none are stated for readers. */
    function Features(): set<string> {
      if readers.Some? then readers.value else if writers.Some? then writers.value else {}
    }
  }

  datatype Table = Table(files: map<string, string>, meta: Option<Meta>, protocol: Option<Protocol>)

  const EMPTY: Table := Table(map[], None, None)

  /** A protocol known by its reader version alone. */
  function VersionOnly(v: int): Protocol { Protocol.Protocol(None, None, Some(v)) }

  function Apply(t: Table, a: Action): Table {
    match a
    case Add(path, partition) => t.(files := t.files[path := partition])
    case Remove(path) => t.(files := t.files - {path})
    case MetaData(meta) => t.(meta := Some(meta))
    case Protocol(protocol) => t.(protocol := Some(protocol))
    case Reader(v) => if t.protocol.None? then t.(protocol := Some(VersionOnly(v))) else t
    case Ignored => t
    case Malformed => t
  }

  function Replay(t: Table, acts: seq<Action>): Table {
    if acts == [] then t else Apply(Replay(t, acts[..|acts| - 1]), acts[|acts| - 1])
  }

  lemma {:induction false} ReplayConcat(t: Table, a: seq<Action>, b: seq<Action>)
    ensures Replay(t, a + b) == Replay(Replay(t, a), b)
  {
    if b == [] {
      assert a + b == a;
    } else {
      assert (a + b)[..|a| + |b| - 1] == a + b[..|b| - 1];
      ReplayConcat(t, a, b[..|b| - 1]);
    }
  }

  // ----- reconciliation: the last action on a path decides

  predicate Names(a: Action, path: string) {
    (a.Add? || a.Remove?) && a.path == path
  }

  /** Action `i` is the last to name `path`, and adds it with this partition. */
  ghost predicate LastAdds(acts: seq<Action>, i: nat, path: string, partition: string) {
    i < |acts| && acts[i] == Add(path, partition) && forall j :: i < j < |acts| ==> !Names(acts[j], path)
  }

  /** The live files are the paths whose last action is an add, each as that action described it. */
  lemma {:induction false} LiveIsLastAdd(acts: seq<Action>, path: string, partition: string)
    ensures path in Replay(EMPTY, acts).files && Replay(EMPTY, acts).files[path] == partition <==>
      exists i :: LastAdds(acts, i, path, partition)
  {
    if acts != [] {
      var (n, before) := (|acts| - 1, acts[..|acts| - 1]);
      LiveIsLastAdd(before, path, partition);
      var live := path in Replay(EMPTY, acts).files && Replay(EMPTY, acts).files[path] == partition;
      if Names(acts[n], path) {
        assert live <==> acts[n] == Add(path, partition);
        if live { assert LastAdds(acts, n, path, partition); }
      } else {
        if i :| LastAdds(before, i, path, partition) {
          assert LastAdds(acts, i, path, partition);
        }
        if i :| LastAdds(acts, i, path, partition) {
          assert LastAdds(before, i, path, partition);
        }
      }
    }
  }

  // ----- checkpoints

  /** A checkpoint's actions describe the table: every live file once or more, the same each time, no
      tombstone of a live file, the table's metadata, and its reader version. */
  ghost predicate Faithful(acts: seq<Action>, t: Table) {
    && (forall i :: 0 <= i < |acts| ==> FaithfulAction(acts[i], t))
    && (forall p :: p in t.files ==> Add(p, t.files[p]) in acts)
    && (t.meta.Some? ==> MetaData(t.meta.value) in acts)
    && (Version(t).Some? ==> Reader(Version(t).value) in acts)
  }

  ghost predicate FaithfulAction(a: Action, t: Table) {
    && (a.Add? ==> a.path in t.files && t.files[a.path] == a.partition)
    && (a.Remove? ==> a.path !in t.files)
    && (a.MetaData? ==> t.meta == Some(a.meta))
    && (a.Reader? ==> Version(t) == Some(a.minReader))
    && !a.Protocol?
  }

  /** The reader version the table states. */
  function Version(t: Table): Option<int> { if t.protocol.Some? then t.protocol.value.minReader else None }

  /** What a checkpoint keeps: everything but the features of the protocol. */
  function Kept(t: Table): Table {
    t.(protocol := if Version(t).Some? then Some(VersionOnly(Version(t).value)) else None)
  }

  /** Whatever has been replayed so far is what its rows say, and nothing else. */
  lemma {:induction false} FaithfulPrefix(acts: seq<Action>, t: Table)
    requires forall i :: 0 <= i < |acts| ==> FaithfulAction(acts[i], t)
    ensures var r := Replay(EMPTY, acts);
      && (forall p :: p in r.files ==> p in t.files && r.files[p] == t.files[p])
      && (forall p :: p in t.files && Add(p, t.files[p]) in acts ==> p in r.files)
      && (r.meta.Some? ==> r.meta == t.meta)
      && (t.meta.Some? && MetaData(t.meta.value) in acts ==> r.meta.Some?)
      && (r.protocol.Some? ==> r.protocol == Kept(t).protocol)
      && (Version(t).Some? && Reader(Version(t).value) in acts ==> r.protocol.Some?)
  {
    if acts != [] {
      var n := |acts| - 1;
      FaithfulPrefix(acts[..n], t);
      assert acts == acts[..n] + [acts[n]];
      assert FaithfulAction(acts[n], t);
    }
  }

  /** A faithful checkpoint replays to what it keeps of its table, whatever the order of its rows. */
  lemma {:induction false} FaithfulReplays(acts: seq<Action>, t: Table)
    requires Faithful(acts, t)
    ensures Replay(EMPTY, acts) == Kept(t)
  {
    FaithfulPrefix(acts, t);
    hide Replay, FaithfulAction;
    assert Replay(EMPTY, acts).files == t.files;
  }

  // ----- a table's history

  /** The table after its first `n` commits. */
  function TableAt(history: seq<seq<Action>>, n: nat): Table
    requires n <= |history|
  {
    Replay(EMPTY, Flat(history[..n]))
  }

  /** A commit states the protocol anew. */
  ghost predicate Restates(acts: seq<Action>) { exists i :: 0 <= i < |acts| && acts[i].Protocol? }

  /** Commits hold no checkpoint rows. */
  ghost predicate CommitActions(acts: seq<Action>) { forall i :: 0 <= i < |acts| ==> !acts[i].Reader? }

  /** Files and metadata do not depend on the protocol; the protocol is the last one stated, if any is. */
  lemma {:induction false} ProtocolApart(a: Table, b: Table, acts: seq<Action>)
    requires a.files == b.files && a.meta == b.meta && CommitActions(acts)
    ensures Replay(a, acts).files == Replay(b, acts).files && Replay(a, acts).meta == Replay(b, acts).meta
    ensures Restates(acts) ==> Replay(a, acts).protocol == Replay(b, acts).protocol
    ensures !Restates(acts) ==> Replay(a, acts).protocol == a.protocol
  {
    if acts != [] {
      var n := |acts| - 1;
      ProtocolApart(a, b, acts[..n]);
      assert acts == acts[..n] + [acts[n]];
      if Restates(acts[..n]) {
        var i :| 0 <= i < n && acts[..n][i].Protocol?;
        assert acts[i].Protocol?;
      }
      if Restates(acts) && !acts[n].Protocol? {
        var i :| 0 <= i < |acts| && acts[i].Protocol?;
        assert acts[..n][i].Protocol?;
      }
    }
  }

  /** From any faithful checkpoint, replaying every later commit gives the table that replaying the whole
      history gives, but for protocol features that no later commit states. */
  lemma {:induction false} CheckpointDoesNotMatter(history: seq<seq<Action>>, n: nat, checkpoint: seq<Action>)
    requires n <= |history| && Faithful(checkpoint, TableAt(history, n)) && CommitActions(Flat(history[n..]))
    ensures var (r, t) := (Replay(Replay(EMPTY, checkpoint), Flat(history[n..])), TableAt(history, |history|));
      r == if Restates(Flat(history[n..])) then t else Kept(t)
  {
    var (t, acts) := (TableAt(history, n), Flat(history[n..]));
    FaithfulReplays(checkpoint, t);
    assert history[..|history|] == history == history[..n] + history[n..];
    FlatConcat(history[..n], history[n..]);
    ReplayConcat(EMPTY, Flat(history[..n]), acts);
    hide Replay, Restates, CommitActions;
    ProtocolApart(Kept(t), t, acts);
    ProtocolApart(t, t, acts);
  }
}
