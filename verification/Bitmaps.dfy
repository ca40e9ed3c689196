/** The type and tag bitmaps of a snapshot: per tag (a type counts as one), the low 32 bits of the ids that carry it. */
module Bitmaps {
  const LOW: nat := 0x1_0000_0000

  /** The bits an id is filed under. */
  function Low(id: nat): nat { id % LOW }

  /** Live ids with their tags, and the bitmap of each tag. */
  datatype Index = Index(rows: map<nat, set<string>>, bits: map<string, set<nat>>)

  datatype Step =
    | Put(id: nat, tags: set<string>)  // insert, or replace
    | Drop(id: nat)
    | Rebuild                            // compaction files every live id afresh; tags only

  function Bits(bits: map<string, set<nat>>, tag: string): set<nat> {
    if tag in bits then bits[tag] else {}
  }

  function Mark(bits: map<string, set<nat>>, tags: set<string>, low: nat): map<string, set<nat>> {
    map tag | tag in bits.Keys + tags :: Bits(bits, tag) + if tag in tags then {low} else {}
  }

  /** A bitmap that empties goes. */
  function Unmark(bits: map<string, set<nat>>, tags: set<string>, low: nat): map<string, set<nat>> {
    map tag | tag in bits && (tag !in tags || bits[tag] - {low} != {}) ::
      if tag in tags then bits[tag] - {low} else bits[tag]
  }

  lemma MarkedBits(bits: map<string, set<nat>>, tags: set<string>, low: nat, tag: string, l: nat)
    ensures l in Bits(Mark(bits, tags, low), tag) <==> l in Bits(bits, tag) || (tag in tags && l == low)
    ensures l in Bits(Unmark(bits, tags, low), tag) <==> l in Bits(bits, tag) && !(tag in tags && l == low)
  {
  }

  function Forget(s: Index, id: nat): Index
    requires id in s.rows
  {
    Index(s.rows - {id}, Unmark(s.bits, s.rows[id], Low(id)))
  }

  ghost function Fresh(rows: map<nat, set<string>>): map<string, set<nat>> {
    var tags := set id, tag | id in rows && tag in rows[id] :: tag;
    map tag | tag in tags :: set id | id in rows && tag in rows[id] :: Low(id)
  }

  ghost function Next(s: Index, step: Step): Index {
    match step
    case Put(id, tags) =>
      var t := if id in s.rows then Forget(s, id) else s;
      Index(t.rows[id := tags], Mark(t.bits, tags, Low(id)))
    case Drop(id) => if id in s.rows then Forget(s, id) else s
    case Rebuild => s.(bits := Fresh(s.rows))
  }

  ghost function Run(steps: seq<Step>): Index {
    if steps == [] then Index(map[], map[]) else Next(Run(steps[..|steps| - 1]), steps[|steps| - 1])
  }

  /** Some live id carries the tag and has these low bits. */
  ghost predicate Carried(rows: map<nat, set<string>>, tag: string, low: nat) {
    exists id :: id in rows && tag in rows[id] && Low(id) == low
  }

  /** Every bit stands for a live id, and no bitmap is empty. */
  ghost predicate Sound(s: Index) {
    && (forall tag :: tag in s.bits ==> s.bits[tag] != {})
    && forall tag, low :: low in Bits(s.bits, tag) ==> Carried(s.rows, tag, low)
  }

  /** And every live id has its bit. */
  ghost predicate Exact(s: Index) {
    Sound(s) && forall id, tag :: id in s.rows && tag in s.rows[id] ==> Low(id) in Bits(s.bits, tag)
  }

  /** Another live id is filed under the same bit of one of these tags. */
  ghost predicate Collides(s: Index, id: nat, tags: set<string>) {
    exists other, tag :: other in s.rows && other != id && Low(other) == Low(id) && tag in tags && tag in s.rows[other]
  }

  lemma ForgetIsSound(s: Index, id: nat)
    requires Sound(s) && id in s.rows
    ensures Sound(Forget(s, id))
  {
    var t := Forget(s, id);
    forall tag, low | low in Bits(t.bits, tag) ensures Carried(t.rows, tag, low) {
      MarkedBits(s.bits, s.rows[id], Low(id), tag, low);
      var other :| other in s.rows && tag in s.rows[other] && Low(other) == low;
      assert other in t.rows && tag in t.rows[other];
    }
  }

  lemma PutIsSound(s: Index, id: nat, tags: set<string>)
    requires Sound(s) && id !in s.rows
    ensures Sound(Index(s.rows[id := tags], Mark(s.bits, tags, Low(id))))
  {
    var t := Index(s.rows[id := tags], Mark(s.bits, tags, Low(id)));
    forall tag, low | low in Bits(t.bits, tag) ensures Carried(t.rows, tag, low) {
      MarkedBits(s.bits, tags, Low(id), tag, low);
      if tag in tags && low == Low(id) {
        assert id in t.rows && tag in t.rows[id];
      } else {
        var other :| other in s.rows && tag in s.rows[other] && Low(other) == low;
        assert other in t.rows && tag in t.rows[other];
      }
    }
  }

  lemma RebuildIsExact(rows: map<nat, set<string>>)
    ensures Exact(Index(rows, Fresh(rows)))
  {
    var bits := Fresh(rows);
    forall id, tag | id in rows && tag in rows[id] ensures Low(id) in Bits(bits, tag) && tag in bits {
    }
  }

  lemma NextIsSound(s: Index, step: Step)
    requires Sound(s)
    ensures Sound(Next(s, step))
  {
    hide Sound, Mark, Unmark, Fresh;
    match step
    case Put(id, tags) =>
      if id in s.rows {
        ForgetIsSound(s, id);
        PutIsSound(Forget(s, id), id, tags);
        assert s.rows - {id} == Forget(s, id).rows;
      } else {
        PutIsSound(s, id, tags);
      }
    case Drop(id) => if id in s.rows { ForgetIsSound(s, id); }
    case Rebuild => RebuildIsExact(s.rows); ExactIsSound(Next(s, step));
  }

  lemma ExactIsSound(s: Index)
    requires Exact(s)
    ensures Sound(s)
  {
  }

  /** In every run each bit stands for a live memory with that tag: a stale row is never listed. */
  lemma {:induction false} RunIsSound(steps: seq<Step>)
    ensures Sound(Run(steps))
  {
    if steps != [] {
      RunIsSound(steps[..|steps| - 1]);
      NextIsSound(Run(steps[..|steps| - 1]), steps[|steps| - 1]);
      hide Sound, Next;
    }
  }

  /** Unfiling one id keeps every other id's bit if and only if no other live id shares a bit of it. */
  lemma ForgetIsExactIff(s: Index, id: nat)
    requires Exact(s) && id in s.rows
    ensures Exact(Forget(s, id)) <==> !Collides(s, id, s.rows[id])
  {
    var t := Forget(s, id);
    ForgetIsSound(s, id);
    if Collides(s, id, s.rows[id]) {
      var other, tag :| other in s.rows && other != id && Low(other) == Low(id) && tag in s.rows[id]
        && tag in s.rows[other];
      assert other in t.rows && tag in t.rows[other] && Low(other) !in Bits(t.bits, tag);
    } else {
      forall other, tag | other in t.rows && tag in t.rows[other] ensures Low(other) in Bits(t.bits, tag) {
        assert Low(other) in Bits(s.bits, tag);
      }
    }
  }

  /** Filing a new id always keeps the bitmaps exact. */
  lemma PutIsExact(s: Index, id: nat, tags: set<string>)
    requires Exact(s) && id !in s.rows
    ensures Exact(Index(s.rows[id := tags], Mark(s.bits, tags, Low(id))))
  {
    PutIsSound(s, id, tags);
    forall other, tag | other in s.rows[id := tags] && tag in s.rows[id := tags][other]
      ensures Low(other) in Bits(Mark(s.bits, tags, Low(id)), tag)
    {
      MarkedBits(s.bits, tags, Low(id), tag, Low(other));
    }
    hide Sound;
  }

  lemma Apart(s: Index, id: nat, tags: set<string>, other: nat, tag: string)
    requires !Collides(s, id, tags) && other in s.rows && other != id && tag in s.rows[other]
    ensures Low(other) != Low(id) || tag !in tags
  {
  }

  /** A replacement files the new tags again, so only a tag it no longer has can lose a shared bit. */
  lemma ReplaceIsExactIff(s: Index, id: nat, tags: set<string>)
    requires Exact(s) && id in s.rows
    ensures Exact(Next(s, Put(id, tags))) <==> !Collides(s, id, s.rows[id] - tags)
  {
    var t := Next(s, Put(id, tags));
    NextIsSound(s, Put(id, tags));
    hide Sound;
    if Collides(s, id, s.rows[id] - tags) {
      var other, tag :| other in s.rows && other != id && Low(other) == Low(id) && tag in s.rows[id] - tags
        && tag in s.rows[other];
      MarkedBits(s.bits, s.rows[id], Low(id), tag, Low(other));
      MarkedBits(Forget(s, id).bits, tags, Low(id), tag, Low(other));
      assert other in t.rows && tag in t.rows[other] && Low(other) !in Bits(t.bits, tag);
    } else {
      forall other, tag | other in t.rows && tag in t.rows[other] ensures Low(other) in Bits(t.bits, tag) {
        if other != id { Apart(s, id, s.rows[id] - tags, other, tag); }
        MarkedBits(s.bits, s.rows[id], Low(id), tag, Low(other));
        MarkedBits(Forget(s, id).bits, tags, Low(id), tag, Low(other));
      }
    }
  }

  /** The ids a run has touched. */
  function Touched(steps: seq<Step>): set<nat> {
    if steps == [] then {}
    else Touched(steps[..|steps| - 1]) + if steps[|steps| - 1].Put? then {steps[|steps| - 1].id} else {}
  }

  lemma {:induction false} RowsAreTouched(steps: seq<Step>)
    ensures Run(steps).rows.Keys <= Touched(steps)
  {
    if steps != [] { RowsAreTouched(steps[..|steps| - 1]); }
  }

  // ----- runs

  /** The step takes no bit away that another live memory still needs. */
  ghost predicate Harmless(s: Index, step: Step) {
    match step
    case Put(id, tags) => id in s.rows ==> !Collides(s, id, s.rows[id] - tags)
    case Drop(id) => id in s.rows ==> !Collides(s, id, s.rows[id])
    case Rebuild => true
  }

  lemma NextIsExactIff(s: Index, step: Step)
    requires Exact(s)
    ensures Exact(Next(s, step)) <==> Harmless(s, step)
  {
    hide Exact, Mark, Unmark, Fresh, Collides;
    match step
    case Put(id, tags) => if id in s.rows { ReplaceIsExactIff(s, id, tags); } else { PutIsExact(s, id, tags); }
    case Drop(id) => if id in s.rows { ForgetIsExactIff(s, id); }
    case Rebuild => RebuildIsExact(s.rows);
  }

  /** In a run whose ids differ in their low bits, every bitmap lists exactly the live memories with its tag. */
  lemma {:induction false} RunIsExact(steps: seq<Step>)
    requires forall a, b :: a in Touched(steps) && b in Touched(steps) && Low(a) == Low(b) ==> a == b
    ensures Exact(Run(steps))
  {
    if steps != [] {
      var before := steps[..|steps| - 1];
      RunIsExact(before);
      RowsAreTouched(before);
      NextIsExactIff(Run(before), steps[|steps| - 1]);
      hide Exact, Next;
    }
  }

  ghost predicate ExactThroughout(steps: seq<Step>) {
    forall n :: 0 <= n <= |steps| ==> Exact(Run(steps[..n]))
  }

  ghost predicate HarmlessThroughout(steps: seq<Step>) {
    forall n :: 0 <= n < |steps| ==> Harmless(Run(steps[..n]), steps[n])
  }

  lemma ThroughoutStep(steps: seq<Step>)
    requires steps != []
    ensures var before := steps[..|steps| - 1];
      && (ExactThroughout(steps) <==> ExactThroughout(before) && Exact(Run(steps)))
      && (HarmlessThroughout(steps) <==> HarmlessThroughout(before) && Harmless(Run(before), steps[|steps| - 1]))
  {
    hide Exact, Run, Harmless;
    var before := steps[..|steps| - 1];
    assert forall n :: 0 <= n < |steps| ==> before[..n] == steps[..n];
    assert steps[..|steps|] == steps;
  }

  /** A run's bitmaps are exact throughout if and only if no step of it takes a shared bit away. */
  lemma {:induction false} RunStaysExactIff(steps: seq<Step>)
    ensures ExactThroughout(steps) <==> HarmlessThroughout(steps)
  {
    hide Exact, Next, Harmless;
    if steps == [] {
      NothingIsExact();
    } else {
      var before := steps[..|steps| - 1];
      RunStaysExactIff(before);
      ThroughoutStep(steps);
      assert ExactThroughout(before) ==> Exact(Run(before)) by { assert before[..|before|] == before; }
      hide ExactThroughout, HarmlessThroughout;
      if Exact(Run(before)) { NextIsExactIff(Run(before), steps[|steps| - 1]); }
    }
  }

  lemma NothingIsExact()
    ensures Exact(Run([]))
  {
  }

  /** Two ids that share their low bits and a tag: dropping one unfiles the other, still live. */
  lemma SharedBitIsLost(a: nat, b: nat, tag: string)
    requires a != b && Low(a) == Low(b)
    ensures var s := Run([Put(a, {tag}), Put(b, {tag}), Drop(a)]);
      s.rows == map[b := {tag}] && Bits(s.bits, tag) == {} && !Exact(s)
  {
    var (put, both, all) := ([Put(a, {tag})], [Put(a, {tag}), Put(b, {tag})], [Put(a, {tag}), Put(b, {tag}), Drop(a)]);
    assert put[..0] == [] && both[..1] == put && all[..2] == both;
    assert Run([]) == Index(map[], map[]);
    assert Bits(map[], tag) + {Low(a)} == {Low(a)};
    assert tag in Mark(map[], {tag}, Low(a));
    assert Run(put) == Index(map[a := {tag}], map[tag := {Low(a)}]);
    assert Run(both) == Index(map[a := {tag}, b := {tag}], map[tag := {Low(a)}]);
    assert Run(all).bits == map[];
    assert b in Run(all).rows && tag in Run(all).rows[b];
  }
}
