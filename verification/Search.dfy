/** `search`: one scan of the packed arena, slots resolved by binary search, then the best by score. */
module Search {
  import opened Common
  import opened PlainGraphs
  import opened Arena
  import opened Indexes
  import opened Snapshots
  import opened Sorting

  datatype Hit = Hit(node: nat, memory: Memory, score: real)

  lemma SliceOccurs(text: string, q: string, p: nat)
    requires p + |q| <= |text|
    ensures OccursAt(text, q, p) <==> text[p..p + |q|] == q
  {
    if text[p..p + |q|] == q {
      forall k | 0 <= k < |q|
        ensures text[p + k] == q[k]
      {
        assert text[p..p + |q|][k] == q[k];
      }
    }
  }

  /** Leftmost occurrence at or after `from`. */
  ghost function Leftmost(text: string, q: string, from: nat): (pos: Option<nat>)
    ensures pos.Some? ==> from <= pos.value && OccursAt(text, q, pos.value)
    ensures forall p :: from <= p < (if pos.Some? then pos.value else |text| + 1) ==> !OccursAt(text, q, p)
    decreases |text| + 1 - from
  {
    if from > |text| then None
    else if OccursAt(text, q, from) then Some(from)
    else Leftmost(text, q, from + 1)
  }

  method FindFrom(text: string, q: string, from: nat) returns (pos: Option<nat>)
    ensures pos == Leftmost(text, q, from)
  {
    var p := from;
    while p + |q| <= |text|
      invariant from <= p
      invariant forall k :: from <= k < p ==> !OccursAt(text, q, k)
    {
      SliceOccurs(text, q, p);
      if text[p..p + |q|] == q {
        return Some(p);
      }
      p := p + 1;
    }
    return None;
  }

  /** The slot a position falls in. */
  ghost predicate InSlot(text: string, offsets: seq<nat>, pos: nat, slot: nat) {
    slot < |offsets| && offsets[slot] <= pos < SlotEnd(text, offsets, slot)
  }

  lemma OneSlot(text: string, offsets: seq<nat>, pos: nat, a: nat, b: nat)
    requires Tiled(text, offsets) && InSlot(text, offsets, pos, a) && InSlot(text, offsets, pos, b)
    ensures a == b
  {
    if a < b { OffsetsIncrease(text, offsets, a, b); }
    if b < a { OffsetsIncrease(text, offsets, b, a); }
  }

  /** Binary search for the slot a position falls in. */
  method SlotAt(text: string, offsets: seq<nat>, pos: nat) returns (slot: nat)
    requires Tiled(text, offsets) && pos < |text|
    ensures InSlot(text, offsets, pos, slot)
  {
    var lo, hi := 0, |offsets|;
    while hi - lo > 1
      invariant 0 <= lo < hi <= |offsets|
      invariant offsets[lo] <= pos
      invariant hi < |offsets| ==> pos < offsets[hi]
    {
      var mid := (lo + hi) / 2;
      if offsets[mid] <= pos { lo := mid; } else { hi := mid; }
    }
    slot := lo;
  }

  /** The node a slot answers for, when its live key contains the query and its memory is visible. */
  ghost predicate Answers(nodes: Nodes, owners: seq<nat>, keys: seq<Option<string>>, q: string,
      visible: Memory -> bool, i: nat)
    requires |owners| == |keys| && i < |keys| && (forall k :: 0 <= k < |owners| ==> owners[k] < |nodes|)
  {
    keys[i].Some? && Contains(keys[i].value, q) && nodes[owners[i]].Some? && visible(nodes[owners[i]].value)
  }

  /** Nodes answered by the first `n` slots, in slot order. */
  ghost function Matching(nodes: Nodes, owners: seq<nat>, keys: seq<Option<string>>, q: string,
      visible: Memory -> bool, n: nat): seq<nat>
    requires |owners| == |keys| && n <= |keys| && (forall k :: 0 <= k < |owners| ==> owners[k] < |nodes|)
  {
    if n == 0 then []
    else
      var before := Matching(nodes, owners, keys, q, visible, n - 1);
      if Answers(nodes, owners, keys, q, visible, n - 1) then before + [owners[n - 1]] else before
  }

  /** The memories a plain search would return: live, visible, key contains the query. */
  ghost predicate Matches(nodes: Nodes, q: string, visible: Memory -> bool, ix: nat) {
    Live(nodes, ix) && visible(nodes[ix].value) && Contains(Key(nodes[ix].value), q)
  }

  /** The slots list every match once and nothing else. */
  lemma {:induction false} MatchingIsExact(nodes: Nodes, owners: seq<nat>, keys: seq<Option<string>>,
      slotOf: map<nat, nat>,
                                           q: string, visible: Memory -> bool, n: nat)
    requires SlotsAgree(nodes, owners, keys, slotOf) && n <= |keys|
    ensures var found := Matching(nodes, owners, keys, q, visible, n);
      && Distinct(found)
      && forall ix: nat :: ix in found <==> Matches(nodes, q, visible, ix) && slotOf[ix] < n
  {
    if n > 0 {
      MatchingIsExact(nodes, owners, keys, slotOf, q, visible, n - 1);
      var before := Matching(nodes, owners, keys, q, visible, n - 1);
      forall ix: nat | Matches(nodes, q, visible, ix) && slotOf[ix] == n - 1
        ensures Answers(nodes, owners, keys, q, visible, n - 1) && ix == owners[n - 1]
      {
      }
    }
  }

  lemma {:induction false} MatchingGrows(nodes: Nodes, owners: seq<nat>, keys: seq<Option<string>>, q: string,
      visible: Memory -> bool, a: nat, b: nat)
    requires |owners| == |keys| && a <= b <= |keys| && (forall k :: 0 <= k < |owners| ==> owners[k] < |nodes|)
    ensures Matching(nodes, owners, keys, q, visible, a) <= Matching(nodes, owners, keys, q, visible, b)
    decreases b
  {
    if a < b { MatchingGrows(nodes, owners, keys, q, visible, a, b - 1); }
  }

  lemma {:induction false} MatchingSkips(nodes: Nodes, owners: seq<nat>, keys: seq<Option<string>>, q: string,
      visible: Memory -> bool, a: nat, b: nat)
    requires |owners| == |keys| && a <= b <= |keys| && (forall k :: 0 <= k < |owners| ==> owners[k] < |nodes|)
    requires forall i :: a <= i < b ==> !(keys[i].Some? && Contains(keys[i].value, q))
    ensures Matching(nodes, owners, keys, q, visible, a) == Matching(nodes, owners, keys, q, visible, b)
    decreases b
  {
    if a < b { MatchingSkips(nodes, owners, keys, q, visible, a, b - 1); }
  }

  /** Slots that lie wholly in a stretch without occurrences have keys that do not contain the query. */
  lemma NoOccurrenceNoMatch(text: string, offsets: seq<nat>, keys: seq<Option<string>>, q: string, from: nat, to: nat,
      a: nat, b: nat)
    requires Represents(text, offsets, keys) && a < b <= |offsets|
    requires forall p :: from <= p < to ==> !OccursAt(text, q, p)
    requires from <= offsets[a] && SlotEnd(text, offsets, b - 1) <= to
    ensures forall i :: a <= i < b ==> !(keys[i].Some? && Contains(keys[i].value, q))
  {
    forall i | a <= i < b && keys[i].Some?
      ensures !Contains(keys[i].value, q)
    {
      if a < i { OffsetsIncrease(text, offsets, a, i); }
      if i < b - 1 { OffsetsIncrease(text, offsets, i, b - 1); }
      forall p: int | OccursAt(keys[i].value, q, p)
        ensures false
      {
        KeyOccurrenceIsInArena(text, offsets, keys, q, p, i);
      }
    }
  }

  /** `from` resumes the scan behind every slot before `done`, and before every later one. */
  ghost predicate ScanPoint(text: string, offsets: seq<nat>, from: nat, done: nat) {
    && done <= |offsets|
    && (done == 0 ==> from == 0)
    && (done > 0 ==> offsets[done - 1] < from <= SlotEnd(text, offsets, done - 1))
  }

  /** One occurrence advances the scan: nothing lies between, and the slot it starts in matches. */
  lemma ScanStep(text: string, offsets: seq<nat>, keys: seq<Option<string>>, q: string, from: nat, done: nat,
      pos: nat, slot: nat)
    requires Represents(text, offsets, keys) && Clean(q) && ScanPoint(text, offsets, from, done)
    requires from <= pos && OccursAt(text, q, pos) && (forall p :: from <= p < pos ==> !OccursAt(text, q, p))
    requires slot < |offsets| && offsets[slot] <= pos < SlotEnd(text, offsets, slot)
    ensures done <= slot + 1 && ScanPoint(text, offsets, pos + |q|, slot + 1)
    ensures forall i :: done <= i < slot ==> !(keys[i].Some? && Contains(keys[i].value, q))
    ensures keys[slot].Some? && Contains(keys[slot].value, q)
  {
    OccurrenceIsInKey(text, offsets, keys, q, pos, slot);
    if slot + 1 < done {
      OffsetsIncrease(text, offsets, slot, done - 1);
    } else if done < slot {
      OffsetsIncrease(text, offsets, slot - 1, slot);
      if done > 0 { OffsetsIncrease(text, offsets, done - 1, done); }
      NoOccurrenceNoMatch(text, offsets, keys, q, from, pos, done, slot);
    }
  }

  /** When no occurrence is left, no later slot matches. */
  lemma ScanEnd(text: string, offsets: seq<nat>, keys: seq<Option<string>>, q: string, from: nat, done: nat)
    requires Represents(text, offsets, keys) && ScanPoint(text, offsets, from, done)
    requires forall p :: from <= p < |text| ==> !OccursAt(text, q, p)
    ensures forall i :: done <= i < |offsets| ==> !(keys[i].Some? && Contains(keys[i].value, q))
  {
    if done < |offsets| {
      if done > 0 { OffsetsIncrease(text, offsets, done - 1, done); }
      NoOccurrenceNoMatch(text, offsets, keys, q, from, |text|, done, |offsets|);
    }
  }

  /** What a scan works on, and what it looks for. */
  datatype Query = Query(nodes: Nodes, arena: string, offsets: seq<nat>, owners: seq<nat>, q: string,
    visible: Memory -> bool, cap: nat)
  {
    ghost predicate Valid() {
      Tiled(arena, offsets) && |owners| == |offsets| && q != "" && cap > 0 && forall k :: 0 <= k < |owners| ==>
        owners[k] < |nodes|
    }

    /** The owner of this slot is live and visible. */
    predicate Yields(slot: nat)
      requires slot < |owners| && forall k :: 0 <= k < |owners| ==> owners[k] < |nodes|
    {
      nodes[owners[slot]].Some? && visible(nodes[owners[slot]].value)
    }
  }

  /** The last slot that starts at or before a position. */
  ghost function SlotIn(offsets: seq<nat>, pos: nat): (slot: nat)
    requires offsets != []
    ensures slot < |offsets| && (offsets[0] <= pos ==> offsets[slot] <= pos)
      && (slot + 1 < |offsets| ==> pos < offsets[slot + 1])
  {
    var n := |offsets| - 1;
    if n == 0 || offsets[n] <= pos then n else SlotIn(offsets[..n], pos)
  }

  /** What is found after visiting a slot. */
  ghost function Taken(s: Query, last: Option<nat>, found: seq<nat>, slot: nat): seq<nat>
    requires s.Valid() && slot < |s.owners|
  {
    if last != Some(slot) && s.Yields(slot) then found + [s.owners[slot]] else found
  }

  /** The scan from `from` on: each occurrence resolves to a slot, a slot just visited is passed over, and the
      owner of any other is taken if it is live and visible, until `cap` are found. */
  ghost function ScanFrom(s: Query, from: nat, last: Option<nat>, found: seq<nat>): seq<nat>
    requires s.Valid()
    decreases |s.arena| - from
  {
    var hit := Leftmost(s.arena, s.q, from);
    if from >= |s.arena| || hit.None? then found
    else
      var slot := SlotIn(s.offsets, hit.value);
      var next := Taken(s, last, found, slot);
      if |next| > |found| && |next| >= s.cap then next else ScanFrom(s, hit.value + |s.q|, Some(slot), next)
  }

  ghost function Found(s: Query): seq<nat>
    requires s.Valid()
  {
    ScanFrom(s, 0, None, [])
  }

  lemma {:induction false} SlotInIs(text: string, offsets: seq<nat>, pos: nat)
    requires Tiled(text, offsets) && pos < |text|
    ensures offsets != [] && InSlot(text, offsets, pos, SlotIn(offsets, pos))
  {
  }

  /** The arena scan. */
  method Scan(s: Query) returns (found: seq<nat>)
    requires s.Valid()
    ensures found == Found(s)
  {
    hide OccursAt, Leftmost, ScanFrom, SlotIn, Tiled;
    found := [];
    var from, last := 0, None;
    while from < |s.arena|
      invariant from <= |s.arena| && |found| < s.cap
      invariant ScanFrom(s, from, last, found) == Found(s)
      decreases |s.arena| - from
    {
      ScanUnfolds(s, from, last, found);
      var hit := FindFrom(s.arena, s.q, from);
      if hit.None? { break; }
      HitFits(s.arena, s.q, from);
      var slot := SlotAt(s.arena, s.offsets, hit.value);
      SlotInIs(s.arena, s.offsets, hit.value);
      OneSlot(s.arena, s.offsets, hit.value, slot, SlotIn(s.offsets, hit.value));
      if last != Some(slot) {
        last := Some(slot);
        if s.Yields(slot) {
          found := found + [s.owners[slot]];
          if |found| >= s.cap { return; }
        }
      }
      from := hit.value + |s.q|;
    }
    ScanUnfolds(s, from, last, found);
  }

  lemma {:induction false} HitFits(text: string, q: string, from: nat)
    ensures var hit := Leftmost(text, q, from); hit.Some? ==> hit.value + |q| <= |text|
  {
  }

  /** Everything found is live and visible, and there are at most `cap`. */
  lemma {:induction false} FoundIsLive(s: Query, from: nat, last: Option<nat>, found: seq<nat>)
    requires s.Valid() && |found| < s.cap
    requires forall i :: 0 <= i < |found| ==> Live(s.nodes, found[i]) && s.visible(s.nodes[found[i]].value)
    ensures var all := ScanFrom(s, from, last, found);
      |all| <= s.cap && forall i :: 0 <= i < |all| ==> Live(s.nodes, all[i]) && s.visible(s.nodes[all[i]].value)
    decreases |s.arena| - from
  {
    hide OccursAt, Leftmost;
    var hit := Leftmost(s.arena, s.q, from);
    if from < |s.arena| && hit.Some? {
      var slot := SlotIn(s.offsets, hit.value);
      var next := Taken(s, last, found, slot);
      if !(|next| > |found| && |next| >= s.cap) { FoundIsLive(s, hit.value + |s.q|, Some(slot), next); }
    }
  }

  lemma FoundAreLive(s: Query)
    requires s.Valid()
    ensures |Found(s)| <= s.cap && forall i :: 0 <= i < |Found(s)| ==>
      Live(s.nodes, Found(s)[i]) && s.visible(s.nodes[Found(s)[i]].value)
  {
    FoundIsLive(s, 0, None, []);
    hide ScanFrom;
  }

  /** The slots before `done` have been scanned, and their matches found. */
  ghost predicate ScannedTo(s: Query, keys: seq<Option<string>>, from: nat, last: Option<nat>, found: seq<nat>,
      done: nat)
    requires s.Valid()
  {
    && Represents(s.arena, s.offsets, keys) && Clean(s.q) && ScanPoint(s.arena, s.offsets, from, done)
    && last == (if done == 0 then None else Some(done - 1))
    && found == Matching(s.nodes, s.owners, keys, s.q, s.visible, done)
  }

  lemma {:induction false} ScanAdvances(s: Query, keys: seq<Option<string>>, from: nat, last: Option<nat>,
      found: seq<nat>, done: nat)
    requires s.Valid() && ScannedTo(s, keys, from, last, found, done) && Leftmost(s.arena, s.q, from).Some?
    ensures var pos := Leftmost(s.arena, s.q, from).value;
      var slot := SlotIn(s.offsets, pos);
      var next := Taken(s, last, found, slot);
      ScannedTo(s, keys, pos + |s.q|, Some(slot), next, slot + 1)
  {
    var pos := Leftmost(s.arena, s.q, from).value;
    var slot := SlotIn(s.offsets, pos);
    HitFits(s.arena, s.q, from);
    assert InSlot(s.arena, s.offsets, pos, slot);
    hide Contains, OccursAt, SlotIn, Leftmost;
    ScanStep(s.arena, s.offsets, keys, s.q, from, done, pos, slot);
    if last != Some(slot) {
      MatchingSkips(s.nodes, s.owners, keys, s.q, s.visible, done, slot);
    }
  }

  /** For a clean query the scan finds the matching slots' owners, in slot order, up to the cap. */
  lemma {:induction false} ScanIsMatching(s: Query, keys: seq<Option<string>>, from: nat, last: Option<nat>,
      found: seq<nat>, done: nat)
    requires s.Valid() && ScannedTo(s, keys, from, last, found, done) && |found| < s.cap && from <= |s.arena|
    ensures var all := Matching(s.nodes, s.owners, keys, s.q, s.visible, |keys|);
      ScanFrom(s, from, last, found) == all[..Min(s.cap, |all|)]
    decreases |s.arena| - from
  {
    hide ScanFrom, ScannedTo, Leftmost, SlotIn, Matching, Taken, Represents, Tiled, OccursAt, Contains;
    var hit := Leftmost(s.arena, s.q, from);
    ScanUnfolds(s, from, last, found);
    if from < |s.arena| && hit.Some? {
      ScanAdvances(s, keys, from, last, found, done);
      HitFits(s.arena, s.q, from);
      var slot := SlotIn(s.offsets, hit.value);
      var next := Taken(s, last, found, slot);
      if |next| > |found| && |next| >= s.cap {
        TakenOne(s, last, found, slot);
        ScanFills(s, keys, hit.value + |s.q|, Some(slot), next, slot + 1);
      } else {
        TakenOne(s, last, found, slot);
        ScanIsMatching(s, keys, hit.value + |s.q|, Some(slot), next, slot + 1);
      }
    } else {
      ScanFinishes(s, keys, from, last, found, done);
    }
  }

  lemma TakenOne(s: Query, last: Option<nat>, found: seq<nat>, slot: nat)
    requires s.Valid() && slot < |s.owners|
    ensures |found| <= |Taken(s, last, found, slot)| <= |found| + 1
  {
  }

  lemma ScanUnfolds(s: Query, from: nat, last: Option<nat>, found: seq<nat>)
    requires s.Valid()
    ensures var hit := Leftmost(s.arena, s.q, from);
      ScanFrom(s, from, last, found) ==
        if from >= |s.arena| || hit.None? then found
        else
          var slot := SlotIn(s.offsets, hit.value);
          var next := Taken(s, last, found, slot);
          if |next| > |found| && |next| >= s.cap then next else ScanFrom(s, hit.value + |s.q|, Some(slot), next)
  {
    hide Leftmost, SlotIn;
  }

  lemma {:induction false} ScanFills(s: Query, keys: seq<Option<string>>, from: nat, last: Option<nat>,
      found: seq<nat>, done: nat)
    requires s.Valid() && ScannedTo(s, keys, from, last, found, done) && |found| == s.cap
    ensures var all := Matching(s.nodes, s.owners, keys, s.q, s.visible, |keys|); found == all[..Min(s.cap, |all|)]
  {
    MatchingGrows(s.nodes, s.owners, keys, s.q, s.visible, done, |keys|);
    hide Matching, Represents, OccursAt;
  }

  lemma {:induction false} ScanFinishes(s: Query, keys: seq<Option<string>>, from: nat, last: Option<nat>,
      found: seq<nat>, done: nat)
    requires s.Valid() && ScannedTo(s, keys, from, last, found, done) && |found| < s.cap
    requires from >= |s.arena| || Leftmost(s.arena, s.q, from).None?
    ensures var all := Matching(s.nodes, s.owners, keys, s.q, s.visible, |keys|); found == all[..Min(s.cap, |all|)]
  {
    ScanEnd(s.arena, s.offsets, keys, s.q, from, done);
    hide Contains, OccursAt, Leftmost;
    MatchingSkips(s.nodes, s.owners, keys, s.q, s.visible, done, |keys|);
  }

  lemma {:induction false} CleanScan(s: Query, keys: seq<Option<string>>)
    requires s.Valid() && Represents(s.arena, s.offsets, keys) && Clean(s.q)
    ensures var all := Matching(s.nodes, s.owners, keys, s.q, s.visible, |keys|);
      Found(s) == all[..Min(s.cap, |all|)]
  {
    ScanIsMatching(s, keys, 0, None, [], 0);
  }

  /** Higher scores first. */
  predicate Better(a: Hit, b: Hit) { a.score >= b.score }

  /** The hits a scan turns up, scored. */
  function Scored(nodes: Nodes, found: seq<nat>, score: nat -> real): (hits: seq<Hit>)
    requires forall i :: 0 <= i < |found| ==> found[i] < |nodes| && nodes[found[i]].Some?
    ensures |hits| == |found|
    ensures forall i :: 0 <= i < |hits| ==> hits[i] == Hit(found[i], nodes[found[i]].value, score(found[i]))
  {
    seq(|found|, i requires 0 <= i < |found| => Hit(found[i], nodes[found[i]].value, score(found[i])))
  }

  /** At most `n` memories match. */
  ghost predicate MatchesAtMost(nodes: Nodes, q: string, visible: Memory -> bool, n: nat) {
    forall s: set<nat> :: (forall ix :: ix in s ==> Matches(nodes, q, visible, ix)) ==> |s| <= n
  }

  /** The first `limit` after sorting: sorted, drawn from the hits, and nothing left out beats them. */
  lemma {:induction false} BestOf(hits: seq<Hit>, limit: nat)
    ensures var all := StableSort(hits, Better);
      var best := all[..Min(limit, |all|)];
      && Sorted(best, Better) && (forall h :: h in best ==> h in hits)
      && (Distinct(hits) ==> Distinct(best))
      && (forall h :: h in hits ==> h in best || (|best| == limit && forall b :: b in best ==> b.score >= h.score))
  {
    var all := StableSort(hits, Better);
    StableSortSorts(hits, Better);
    hide StableSort;
    forall h ensures h in all <==> h in hits {
      assert h in all <==> h in multiset(all);
      assert h in hits <==> h in multiset(hits);
    }
    if Distinct(hits) { RearrangedDistinct(hits, all); }
    var n := Min(limit, |all|);
    FrontIsBest(all, n);
    hide Sorted, Distinct;
  }

  /** The front of a sorted list is sorted, repeats nothing the list does not, and beats what is behind it. */
  lemma FrontIsBest(all: seq<Hit>, n: nat)
    requires Sorted(all, Better) && n <= |all|
    ensures Sorted(all[..n], Better) && (Distinct(all) ==> Distinct(all[..n]))
      && (forall h :: h in all[..n] ==> h in all)
    ensures forall h :: h in all ==> h in all[..n] || (n < |all| && forall b :: b in all[..n] ==> b.score >= h.score)
  {
    forall h | h in all && h !in all[..n] ensures n < |all| && forall b :: b in all[..n] ==> b.score >= h.score {
      var j :| 0 <= j < |all| && all[j] == h;
      assert j >= n;
      forall b | b in all[..n] ensures b.score >= h.score {
        var i :| 0 <= i < n && all[i] == b;
        assert Better(all[i], all[j]);
      }
    }
  }

  /** With few enough matches the capped scan holds all of them. */
  lemma {:induction false} ScanHoldsAll(nodes: Nodes, owners: seq<nat>, keys: seq<Option<string>>,
      slotOf: map<nat, nat>,
                     q: string, visible: Memory -> bool, found: seq<nat>, cap: nat)
    requires SlotsAgree(nodes, owners, keys, slotOf)
    requires var all := Matching(nodes, owners, keys, q, visible, |keys|); found == all[..Min(cap, |all|)]
    ensures Distinct(found) && forall ix :: ix in found ==> Matches(nodes, q, visible, ix)
    ensures MatchesAtMost(nodes, q, visible, cap) ==> forall ix: nat :: Matches(nodes, q, visible, ix) ==> ix in found
  {
    var all := Matching(nodes, owners, keys, q, visible, |keys|);
    MatchingIsExact(nodes, owners, keys, slotOf, q, visible, |keys|);
    DistinctBySize(all);
    assert forall ix :: ix in found ==> ix in all;
    if MatchesAtMost(nodes, q, visible, cap) {
      assert forall ix :: ix in Elements(all) ==> Matches(nodes, q, visible, ix);
      assert |all| <= cap;
      assert found == all;
    }
  }

  /** Scored, sorted, truncated. */
  function Ranked(nodes: Nodes, found: seq<nat>, score: nat -> real, limit: nat): seq<Hit>
    requires forall i :: 0 <= i < |found| ==> found[i] < |nodes| && nodes[found[i]].Some?
  {
    var all := StableSort(Scored(nodes, found, score), Better);
    all[..Min(limit, |all|)]
  }

  ghost predicate Listed(hits: seq<Hit>, ix: nat) {
    exists h :: h in hits && h.node == ix
  }

  /** Ranking keeps the best nodes found, and only those. */
  lemma RankedIsBest(nodes: Nodes, found: seq<nat>, score: nat -> real, limit: nat)
    requires forall i :: 0 <= i < |found| ==> found[i] < |nodes| && nodes[found[i]].Some?
    ensures var hits := Ranked(nodes, found, score, limit);
      && |hits| <= limit && Sorted(hits, Better)
      && (forall h :: h in hits ==> h.node in found && h == Hit(h.node, nodes[h.node].value, score(h.node)))
      && (Distinct(found) ==> forall i, j :: 0 <= i < j < |hits| ==> hits[i].node != hits[j].node)
      && (forall ix :: ix in found ==>
        Listed(hits, ix) || (|hits| == limit && forall h :: h in hits ==> h.score >= score(ix)))
  {
    var scored := Scored(nodes, found, score);
    var hits := Ranked(nodes, found, score, limit);
    BestOf(scored, limit);
    hide StableSort, Sorted;
    forall ix | ix in found
      ensures Listed(hits, ix) || (|hits| == limit && forall h :: h in hits ==> h.score >= score(ix))
    {
      var i :| 0 <= i < |found| && found[i] == ix;
      assert scored[i] in scored;
    }
  }

  lemma SnapshotIsValid(nodes: Nodes, arena: string, offsets: seq<nat>, owners: seq<nat>, keys: seq<Option<string>>,
      slotOf: map<nat, nat>)
    requires Represents(arena, offsets, keys) && SlotsAgree(nodes, owners, keys, slotOf)
    ensures Tiled(arena, offsets) && |owners| == |offsets| && forall k :: 0 <= k < |owners| ==> owners[k] < |nodes|
  {
  }

  /** `search` over one snapshot. For a clean query with at most four times `limit` visible matches the
      result is the best `limit` of exactly those matches, each once. */
  method SearchMemories(snap: GraphSnapshot, query: string, limit: nat, visible: Memory -> bool, score: nat -> real)
    returns (hits: seq<Hit>)
    requires snap.Valid()
    ensures |hits| <= limit && Sorted(hits, Better)
    ensures forall h :: h in hits ==>
      Live(snap.nodes, h.node) && h == Hit(h.node, snap.nodes[h.node].value, score(h.node)) && visible(h.memory)
    ensures Clean(Lower(query)) ==>
      && (forall i, j :: 0 <= i < j < |hits| ==> hits[i].node != hits[j].node)
      && (forall h :: h in hits ==> Matches(snap.nodes, Lower(query), visible, h.node))
    ensures Clean(Lower(query)) && MatchesAtMost(snap.nodes, Lower(query), visible, 4 * limit) ==>
      forall ix: nat :: Matches(snap.nodes, Lower(query), visible, ix) ==>
        Listed(hits, ix) || (|hits| == limit && forall h :: h in hits ==> h.score >= score(ix))
  {
    hide Represents, Tiled, SlotsAgree, NodesAgree, EdgesAgree, EntitiesAgree, Matches, MatchesAtMost, Total, Ranked,
      Listed, Matching, Found;
    var q := Lower(query);
    if limit == 0 || q == "" {
      return [];
    }
    var query' := Query(snap.nodes, snap.searchArena, snap.searchOffsets, snap.searchNodes, q, visible, 4 * limit);
    SnapshotIsValid(snap.nodes, snap.searchArena, snap.searchOffsets, snap.searchNodes, snap.slotKeys, snap.slotOf);
    var found := Scan(query');
    FoundAreLive(query');
    if Clean(q) {
      CleanScan(query', snap.slotKeys);
      ScanHoldsAll(snap.nodes, snap.searchNodes, snap.slotKeys, snap.slotOf, q, visible, found, 4 * limit);
    }
    RankedIsBest(snap.nodes, found, score, limit);
    hits := Ranked(snap.nodes, found, score, limit);
  }
}
