/** The session's snapshot history, by which it notices a source that moved backwards. */
module History {
  import opened Common

  const HISTORY: nat := 16

  function LastOf<T>(n: nat, s: seq<T>): (r: seq<T>)
    ensures |r| <= n && |r| <= |s|
  {
    if |s| <= n then s else s[|s| - n..]
  }

  function Tail(seen: seq<string>): seq<string> { LastOf(1, seen) }

  /** A repeat of the newest snapshot is not recorded; the oldest entry makes room. */
  function Record(seen: seq<string>, id: string): seq<string> {
    if seen != [] && seen[|seen| - 1] == id then seen else LastOf(HISTORY, seen + [id])
  }

  function RecordAll(seen: seq<string>, ids: seq<string>): seq<string> {
    if ids == [] then seen else Record(RecordAll(seen, ids[..|ids| - 1]), ids[|ids| - 1])
  }

  /** The id was recorded and superseded: the source went back. */
  predicate Rewound(seen: seq<string>, id: string) {
    seen != [] && id != seen[|seen| - 1] && id in seen
  }

  ghost predicate Admissible(seen: seq<string>, ids: seq<string>) {
    forall i :: 0 <= i < |ids| ==> !Rewound(seen, ids[i])
  }

  /** The ids a window adds: each that differs from the one before it. */
  function Pushed(tail: seq<string>, ids: seq<string>): seq<string> {
    if ids == [] then []
    else
      var before := Pushed(tail, ids[..|ids| - 1]);
      var (all, id) := (tail + before, ids[|ids| - 1]);
      if all != [] && all[|all| - 1] == id then before else before + [id]
  }

  /** The history is the newest sixteen of everything pushed. */
  lemma {:induction false} HistoryIsNewest(seen: seq<string>, ids: seq<string>)
    requires |seen| <= HISTORY
    ensures RecordAll(seen, ids) == LastOf(HISTORY, seen + Pushed(Tail(seen), ids))
  {
    if ids == [] {
      assert seen + [] == seen;
    } else {
      var n := |ids| - 1;
      HistoryIsNewest(seen, ids[..n]);
      var (before, id) := (Pushed(Tail(seen), ids[..n]), ids[n]);
      SameEnd(seen, before);
      NewestStep(seen + before, id);
      assert seen + (before + [id]) == seen + before + [id];
      hide LastOf, Tail;
    }
  }

  ghost predicate EndsIn(s: seq<string>, id: string) { s != [] && s[|s| - 1] == id }

  lemma SameEnd(seen: seq<string>, before: seq<string>)
    ensures seen + before == [] <==> Tail(seen) + before == []
    ensures forall id :: EndsIn(seen + before, id) <==> EndsIn(Tail(seen) + before, id)
  {
  }

  lemma NewestStep(all: seq<string>, id: string)
    ensures EndsIn(LastOf(HISTORY, all), id) <==> EndsIn(all, id)
    ensures LastOf(HISTORY, LastOf(HISTORY, all) + [id]) == LastOf(HISTORY, all + [id])
  {
  }

  lemma {:induction false} PushedComeFrom(tail: seq<string>, ids: seq<string>)
    ensures forall x :: x in Pushed(tail, ids) ==> x in ids
    ensures |Pushed(tail, ids)| <= |ids|
  {
    if ids != [] {
      PushedComeFrom(tail, ids[..|ids| - 1]);
      assert ids == ids[..|ids| - 1] + [ids[|ids| - 1]];
    }
  }

  lemma SuffixDistinct<T>(a: seq<T>, b: seq<T>)
    requires Distinct(a + b)
    ensures Distinct(b) && Distinct(a)
  {
    forall i, j | 0 <= i < j < |b| ensures b[i] != b[j] {
      assert (a + b)[|a| + i] != (a + b)[|a| + j];
    }
    forall i, j | 0 <= i < j < |a| ensures a[i] != a[j] {
      assert (a + b)[i] != (a + b)[j];
    }
  }

  /** Older entries do not matter: they are distinct and, being superseded, are not pushed again. */
  lemma JoinDistinct(older: seq<string>, tail: seq<string>, pushed: seq<string>)
    requires Distinct(older + tail) && Distinct(tail + pushed) && forall x :: x in pushed ==> x !in older
    ensures Distinct(older + tail + pushed)
  {
    var all := older + tail + pushed;
    forall i, j | 0 <= i < j < |all| ensures all[i] != all[j] {
      if i >= |older| {
        assert all[i] == (tail + pushed)[i - |older|] && all[j] == (tail + pushed)[j - |older|];
      } else if j < |older| + |tail| {
        assert all[i] == (older + tail)[i] && all[j] == (older + tail)[j];
      } else {
        assert all[i] in older && all[j] in pushed;
      }
    }
  }

  lemma NewestDistinctIff(older: seq<string>, tail: seq<string>, pushed: seq<string>)
    requires Distinct(older + tail) && forall x :: x in pushed ==> x !in older
    ensures Distinct(LastOf(HISTORY, older + tail + pushed)) <==> Distinct(LastOf(HISTORY, tail + pushed))
  {
    hide Distinct;
    var short := tail + pushed;
    assert older + tail + pushed == older + short;
    NewestOfJoin(HISTORY, older, short);
    if |short| < HISTORY {
      var from := |older| - |LastOf(HISTORY - |short|, older)|;
      assert older[from..] == LastOf(HISTORY - |short|, older);
      assert older[from..] + short == older[from..] + tail + pushed;
      KeptIsSuffix(older, tail, from);
      KeptDistinctIff(older[from..], tail, pushed);
    }
  }

  lemma NewestOfJoin<T>(n: nat, a: seq<T>, b: seq<T>)
    ensures LastOf(n, a + b) == if |b| >= n then LastOf(n, b) else LastOf(n - |b|, a) + b
  {
  }

  lemma KeptDistinctIff(extra: seq<string>, tail: seq<string>, pushed: seq<string>)
    requires Distinct(extra + tail) && forall x :: x in pushed ==> x !in extra
    ensures Distinct(extra + tail + pushed) <==> Distinct(tail + pushed)
  {
    if Distinct(tail + pushed) {
      JoinDistinct(extra, tail, pushed);
    } else if Distinct(extra + tail + pushed) {
      assert extra + tail + pushed == extra + (tail + pushed);
      SuffixDistinct(extra, tail + pushed);
    }
  }

  /** Exactly which windows leave a duplicate-free history: those whose own pushes, after the newest
      entry, do not repeat within the sixteen kept. */
  lemma {:induction false} HistoryDistinctIff(seen: seq<string>, ids: seq<string>)
    requires |seen| <= HISTORY && Distinct(seen) && Admissible(seen, ids)
    ensures Distinct(RecordAll(seen, ids)) <==> Distinct(LastOf(HISTORY, Tail(seen) + Pushed(Tail(seen), ids)))
  {
    var (tail, pushed) := (Tail(seen), Pushed(Tail(seen), ids));
    var older := seen[..|seen| - |tail|];
    HistoryIsNewest(seen, ids);
    PushedComeFrom(tail, ids);
    assert seen == older + tail;
    hide Pushed, RecordAll, Distinct;
    OldNotPushed(seen, ids, older, pushed);
    NewestDistinctIff(older, tail, pushed);
  }

  lemma KeptIsSuffix(older: seq<string>, tail: seq<string>, from: nat)
    requires Distinct(older + tail) && from <= |older|
    ensures Distinct(older[from..] + tail)
  {
    assert older + tail == older[..from] + (older[from..] + tail);
    SuffixDistinct(older[..from], older[from..] + tail);
  }

  lemma OldNotPushed(seen: seq<string>, ids: seq<string>, older: seq<string>, pushed: seq<string>)
    requires Admissible(seen, ids) && Distinct(seen) && (forall x :: x in pushed ==> x in ids)
    requires seen != [] ==> older == seen[..|seen| - 1]
    requires seen == [] ==> older == []
    ensures forall x :: x in pushed ==> x !in older
  {
    forall x | x in pushed ensures x !in older {
      var i :| 0 <= i < |ids| && ids[i] == x;
      assert !Rewound(seen, ids[i]);
      if seen != [] {
        forall k | 0 <= k < |older| ensures older[k] != x { assert seen[k] == older[k] && seen[k] in seen; }
      }
    }
  }

  /** One snapshot per window keeps the history duplicate-free. */
  lemma {:induction false} OneSnapshotKeepsDistinct(seen: seq<string>, ids: seq<string>)
    requires |seen| <= HISTORY && Distinct(seen) && Admissible(seen, ids) && |ids| <= 1
    ensures Distinct(RecordAll(seen, ids)) && |RecordAll(seen, ids)| <= HISTORY
  {
    HistoryDistinctIff(seen, ids);
    HistoryIsNewest(seen, ids);
    PushedComeFrom(Tail(seen), ids);
    if ids != [] { assert Pushed(Tail(seen), ids[..0]) == []; }
  }

  /** More than one can break it: a window may name a snapshot, another, and the first again. */
  lemma ReturningSnapshotRepeats(a: string, b: string)
    requires a != b
    ensures Admissible([], [a, b, a]) && RecordAll([], [a, b, a]) == [a, b, a] && !Distinct(RecordAll([], [a, b, a]))
  {
    assert [a, b, a][..2] == [a, b] && [a, b][..1] == [a] && [a][..0] == [];
    assert RecordAll([], [a]) == [a];
    assert RecordAll([], [a, b]) == [a, b];
  }

  /** A refused window leaves the history alone. */
  function Offered(seen: seq<string>, id: string): seq<string> {
    if Rewound(seen, id) then seen else Record(seen, id)
  }

  function OfferedAll(ids: seq<string>): seq<string> {
    if ids == [] then [] else Offered(OfferedAll(ids[..|ids| - 1]), ids[|ids| - 1])
  }

  /** Over any sequence of one-snapshot windows, whatever they name. */
  lemma {:induction false} HistoryStaysDistinct(ids: seq<string>)
    ensures Distinct(OfferedAll(ids)) && |OfferedAll(ids)| <= HISTORY
  {
    if ids != [] {
      var (seen, id) := (OfferedAll(ids[..|ids| - 1]), ids[|ids| - 1]);
      HistoryStaysDistinct(ids[..|ids| - 1]);
      if !Rewound(seen, id) {
        OneSnapshotKeepsDistinct(seen, [id]);
        assert [id][..0] == [];
        assert RecordAll(seen, [id]) == Record(seen, id);
      }
    }
  }
}
