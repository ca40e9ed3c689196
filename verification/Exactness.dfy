/** For which queries the arena scan finds only memories whose key contains them. */
module Exactness {
  import opened Common
  import opened PlainGraphs
  import opened Arena
  import opened Indexes
  import opened Search

  /** The query runs on an arena that represents `keys`, the keys of its nodes. */
  ghost predicate Stands(s: Query, keys: seq<Option<string>>, slotOf: map<nat, nat>) {
    s.q != "" && s.cap > 0 && Represents(s.arena, s.offsets, keys) && SlotsAgree(s.nodes, s.owners, keys, slotOf)
  }

  /** Every node found is a match. */
  ghost predicate OnlyMatches(s: Query) {
    s.Valid() ==> forall ix :: ix in Found(s) ==> Matches(s.nodes, s.q, s.visible, ix)
  }

  lemma StandsIsValid(s: Query, keys: seq<Option<string>>, slotOf: map<nat, nat>)
    requires Stands(s, keys, slotOf)
    ensures s.Valid()
  {
    SnapshotIsValid(s.nodes, s.arena, s.offsets, s.owners, keys, slotOf);
  }

  lemma CleanFindsMatches(s: Query, keys: seq<Option<string>>, slotOf: map<nat, nat>)
    requires Stands(s, keys, slotOf) && Clean(s.q)
    ensures OnlyMatches(s)
  {
    StandsIsValid(s, keys, slotOf);
    CleanScan(s, keys);
    MatchingIsExact(s.nodes, s.owners, keys, slotOf, s.q, s.visible, |keys|);
    hide Matching, Found, Matches, Represents, SlotsAgree, Clean;
    var all := Matching(s.nodes, s.owners, keys, s.q, s.visible, |keys|);
    forall ix | ix in Found(s) ensures Matches(s.nodes, s.q, s.visible, ix) { assert ix in all; }
  }

  /** An occurrence at the very start is found, and counted for the first slot's owner. */
  lemma FirstHitIsFound(s: Query)
    requires s.Valid() && OccursAt(s.arena, s.q, 0) && s.Yields(0)
    ensures s.owners[0] in Found(s)
  {
    assert Leftmost(s.arena, s.q, 0) == Some(0);
    assert SlotIn(s.offsets, 0) == 0 by { FirstSlot(s.arena, s.offsets); }
    ScanUnfolds(s, 0, None, []);
    hide Leftmost, SlotIn, OccursAt, Tiled;
    assert [] + [s.owners[0]] == [s.owners[0]];
    if s.cap > 1 { ScanKeeps(s, |s.q|, Some(0), [s.owners[0]], s.owners[0]); }
  }

  lemma {:induction false} FirstSlot(text: string, offsets: seq<nat>)
    requires Tiled(text, offsets) && text != ""
    ensures offsets != [] && SlotIn(offsets, 0) == 0
  {
    if SlotIn(offsets, 0) > 0 { OffsetsIncrease(text, offsets, 0, SlotIn(offsets, 0)); }
  }

  lemma {:induction false} ScanKeeps(s: Query, from: nat, last: Option<nat>, found: seq<nat>, ix: nat)
    requires s.Valid() && ix in found
    ensures ix in ScanFrom(s, from, last, found)
    decreases |s.arena| - from
  {
    hide ScanFrom, Leftmost, SlotIn, OccursAt, Tiled;
    ScanUnfolds(s, from, last, found);
    var hit := Leftmost(s.arena, s.q, from);
    if from < |s.arena| && hit.Some? {
      var slot := SlotIn(s.offsets, hit.value);
      var next := Taken(s, last, found, slot);
      ScanKeeps(s, hit.value + |s.q|, Some(slot), next, ix);
    }
  }

  // ----- the queries that find more

  /** A memory with this title and nothing else. */
  function Titled(id: nat, title: string): Memory { Memory(id, title, "", [], []) }

  lemma TitledKey(id: nat, title: string)
    requires Lower(title) == title
    ensures Key(Titled(id, title)) == title
  {
    assert title + "" == title;
  }

  lemma LowerSlice(q: string, from: nat, to: nat)
    requires Lower(q) == q && from <= to <= |q|
    ensures Lower(q[from..to]) == q[from..to]
  {
    forall i | 0 <= i < to - from ensures Lower(q[from..to])[i] == q[from..to][i] {
      assert Lower(q)[from + i] == q[from + i];
    }
  }

  lemma TooShort(text: string, q: string)
    requires |text| < |q|
    ensures !Contains(text, q)
  {
  }

  /** One memory, replaced once when its key was empty: the blank left behind and the new key read as `q`. */
  function Replaced(q: string): (s: Query)
    requires q != ""
    ensures s.q == q
  {
    Query([Some(Titled(0, q[1..]))], [BLANK] + q[1..] + [NL], [0, 1], [0, 0], q, m => true, 1)
  }

  lemma ReplacedStands(q: string)
    requires q != "" && q[0] == BLANK && Lower(q) == q
    ensures Stands(Replaced(q), [None, Some(q[1..])], map[0 := 1]) && OccursAt(Replaced(q).arena, q, 0)
  {
    LowerSlice(q, 1, |q|);
    TitledKey(0, q[1..]);
    BlankedArena(q);
    hide Key, Represents, Lower;
  }

  /** Two memories whose keys are the query's first line and the rest of it. */
  function Lines(q: string, k: nat): (s: Query)
    requires k < |q|
    ensures s.q == q
  {
    Query([Some(Titled(0, q[..k])), Some(Titled(1, q[k + 1..]))], q[..k] + [NL] + q[k + 1..] + [NL], [0, k + 1],
      [0, 1], q, m => true, 1)
  }

  lemma LinesStand(q: string, k: nat)
    requires k < |q| && q[k] == NL && Lower(q) == q
    ensures Stands(Lines(q, k), [Some(q[..k]), Some(q[k + 1..])], map[0 := 0, 1 := 1])
      && OccursAt(Lines(q, k).arena, q, 0)
  {
    LowerSlice(q, 0, k);
    LowerSlice(q, k + 1, |q|);
    assert q[0..k] == q[..k] && q[k + 1..|q|] == q[k + 1..];
    TitledKey(0, q[..k]);
    TitledKey(1, q[k + 1..]);
    LinesArena(q, k);
    hide Key, Represents, Lower;
  }

  lemma ReplacedMisleads(q: string)
    requires q != "" && q[0] == BLANK && Lower(q) == q
    ensures !OnlyMatches(Replaced(q))
  {
    var s := Replaced(q);
    ReplacedStands(q);
    StandsIsValid(s, [None, Some(q[1..])], map[0 := 1]);
    LowerSlice(q, 1, |q|);
    TitledKey(0, q[1..]);
    TooShort(q[1..], q);
    hide Stands, Found, OccursAt, Contains, Key;
    FirstHitIsFound(s);
    assert s.owners[0] == 0;
  }

  lemma LinesMislead(q: string, k: nat)
    requires k < |q| && q[k] == NL && Lower(q) == q
    ensures !OnlyMatches(Lines(q, k))
  {
    var s := Lines(q, k);
    LinesStand(q, k);
    StandsIsValid(s, [Some(q[..k]), Some(q[k + 1..])], map[0 := 0, 1 := 1]);
    LowerSlice(q, 0, k);
    assert q[0..k] == q[..k];
    TitledKey(0, q[..k]);
    TooShort(q[..k], q);
    hide Stands, Found, OccursAt, Contains, Key;
    FirstHitIsFound(s);
    assert s.owners[0] == 0;
  }

  /** On every arena of every graph, the scan finds only matches. */
  ghost predicate ExactFor(q: string) {
    forall s: Query, keys: seq<Option<string>>, slotOf: map<nat, nat> {:trigger Stands(s, keys, slotOf)} ::
      Stands(s, keys, slotOf) && s.q == q ==> OnlyMatches(s)
  }

  lemma Misled(q: string, s: Query, keys: seq<Option<string>>, slotOf: map<nat, nat>)
    requires Stands(s, keys, slotOf) && s.q == q && !OnlyMatches(s)
    ensures !ExactFor(q)
  {
    hide OnlyMatches;
  }

  /** The scan finds only matches if and only if the query has no newline and does not start with a space. */
  lemma ScanIsExactIff(q: string)
    requires q != "" && Lower(q) == q
    ensures Clean(q) <==> ExactFor(q)
  {
    hide Stands, OnlyMatches, Lower, Replaced, Lines;
    if Clean(q) {
      forall s: Query, keys: seq<Option<string>>, slotOf: map<nat, nat> | Stands(s, keys, slotOf) && s.q == q
        ensures OnlyMatches(s)
      {
        CleanFindsMatches(s, keys, slotOf);
      }
    } else if q[0] == BLANK {
      hide ExactFor;
      ReplacedStands(q);
      ReplacedMisleads(q);
      Misled(q, Replaced(q), [None, Some(q[1..])], map[0 := 1]);
    } else {
      hide ExactFor;
      var k :| 0 <= k < |q| && q[k] == NL;
      LinesStand(q, k);
      LinesMislead(q, k);
      Misled(q, Lines(q, k), [Some(q[..k]), Some(q[k + 1..])], map[0 := 0, 1 := 1]);
    }
  }
}
