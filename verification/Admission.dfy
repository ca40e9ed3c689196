/** 2Q admission: which graphs stay resident under a byte budget, and when the byte counter is right. */
module Admission {
  import opened Common

  type Org = string

  // ----- sums over resident graphs

  ghost function Sum(m: map<Org, nat>): nat {
    if m == map[] then 0
    else
      var k :| k in m;
      m[k] + Sum(m - {k})
  }

  lemma {:induction false} SumRemove(m: map<Org, nat>, k: Org)
    requires k in m
    ensures Sum(m) == m[k] + Sum(m - {k})
    decreases |m|
  {
    var j :| j in m && Sum(m) == m[j] + Sum(m - {j});
    if j != k {
      SumRemove(m - {j}, k);
      SumRemove(m - {k}, j);
      assert m - {j} - {k} == m - {k} - {j};
    }
  }

  lemma SumUpdate(m: map<Org, nat>, k: Org, v: nat)
    ensures Sum(m[k := v]) == v + Sum(m - {k})
    ensures k in m ==> Sum(m) == m[k] + Sum(m - {k})
    ensures k !in m ==> m - {k} == m
  {
    SumRemove(m[k := v], k);
    assert m[k := v] - {k} == m - {k};
    if k in m { SumRemove(m, k); } else { assert m - {k} == m; }
  }

  // ----- the queues

  /** First in is first; in `am` and `a1out` that is the least recently used. */
  datatype Queues = Queues(a1in: seq<Org>, am: seq<Org>, a1out: seq<Org>)

  /** Inserting into a bounded LRU list: a known key moves to the end, a new one may push out the oldest. */
  function Put(s: seq<Org>, x: Org, cap: nat): seq<Org> {
    if x in s then Without(s, x) + [x]
    else if |s| >= cap && s != [] then s[1..] + [x]
    else s + [x]
  }

  function EntryBudget(total: nat): (r: (nat, nat))
    ensures 2 <= r.0 <= r.1
  {
    var entries: nat := if total / 1024 >= 8 then total / 1024 else 8;
    (entries / 4, entries / 2)
  }

  /** Where an admission puts the org. */
  function Place(q: Queues, org: Org, amCap: nat): Queues {
    if org in q.am then q.(am := Put(q.am, org, amCap))
    else if org in q.a1out then q.(am := Put(q.am, org, amCap), a1out := Without(q.a1out, org))
    else if org in q.a1in then q.(a1in := Without(q.a1in, org), am := Put(q.am, org, amCap))
    else q.(a1in := q.a1in + [org])
  }

  ghost predicate Disjoint(q: Queues) {
    && Distinct(q.a1in) && Distinct(q.am) && Distinct(q.a1out)
    && (forall x :: x in q.a1in ==> x !in q.am && x !in q.a1out)
    && (forall x :: x in q.am ==> x !in q.a1out)
  }

  ghost predicate Queued(q: Queues, x: Org) { x in q.a1in || x in q.am }

  /** The admission pushes the oldest entry of a full `am` out, silently. */
  ghost predicate Overflows(q: Queues, org: Org, amCap: nat) {
    org !in q.am && (org in q.a1out || org in q.a1in) && |q.am| >= amCap && q.am != []
  }

  lemma {:induction false} WithoutKeeps(s: seq<Org>, x: Org)
    requires Distinct(s)
    ensures Distinct(Without(s, x)) && |Without(s, x)| <= |s|
    ensures forall y :: y in Without(s, x) <==> y in s && y != x
    ensures x in s ==> |Without(s, x)| == |s| - 1
  {
    if s != [] {
      PopFirst(s);
      WithoutKeeps(s[1..], x);
      if s[0] == x { WithoutAbsent(s[1..], x); } else { PrependDistinct(s[0], Without(s[1..], x)); }
    }
  }

  lemma PrependDistinct(x: Org, s: seq<Org>)
    requires Distinct(s) && x !in s
    ensures Distinct([x] + s)
  {
    forall i, j | 0 <= i < j < |s| + 1 ensures ([x] + s)[i] != ([x] + s)[j] {
      if i > 0 { assert s[i - 1] != s[j - 1]; }
    }
  }

  lemma AppendDistinct(s: seq<Org>, x: Org)
    ensures Distinct(s + [x]) <==> Distinct(s) && x !in s
  {
    var t := s + [x];
    if Distinct(t) {
      forall i, j | 0 <= i < j < |s| ensures s[i] != s[j] { assert t[i] != t[j]; }
      forall i | 0 <= i < |s| ensures s[i] != x { assert t[i] != t[|s|]; }
    }
  }

  lemma PutKeeps(s: seq<Org>, x: Org, cap: nat)
    requires Distinct(s) && |s| <= cap && 0 < cap
    ensures Distinct(Put(s, x, cap)) && |Put(s, x, cap)| <= cap
    ensures forall y :: y in Put(s, x, cap) <==> y == x || (y in s && !(x !in s && |s| >= cap && y == s[0]))
  {
    WithoutKeeps(s, x);
    AppendDistinct(Without(s, x), x);
    AppendDistinct(s, x);
    if x !in s && |s| >= cap {
      assert s == [s[0]] + s[1..];
      PopFirst(s);
      assert s[0] !in s[1..] by { forall i | 0 <= i < |s[1..]| ensures s[1..][i] != s[0] { assert s[0] != s[1 + i]; } }
      AppendDistinct(s[1..], x);
    }
  }

  /** Some a comes before some b. */
  ghost predicate Earlier(s: seq<Org>, a: Org, b: Org) {
    exists i, j :: 0 <= i < j < |s| && s[i] == a && s[j] == b
  }

  /** What is left stands in the order it stood in. */
  ghost predicate KeepsOrder(before: seq<Org>, after: seq<Org>) {
    forall i, j :: 0 <= i < j < |after| ==> Earlier(before, after[i], after[j])
  }

  lemma {:induction false} WithoutKeepsOrder(s: seq<Org>, x: Org)
    ensures KeepsOrder(s, Without(s, x))
  {
    if s != [] {
      var (rest, tail) := (s[1..], Without(s[1..], x));
      WithoutKeepsOrder(rest, x);
      var r := Without(s, x);
      forall i, j | 0 <= i < j < |r| ensures Earlier(s, r[i], r[j]) {
        if s[0] == x {
          EarlierBehind(s, r[i], r[j]);
        } else if i > 0 {
          EarlierBehind(s, tail[i - 1], tail[j - 1]);
        } else {
          WithoutKeepsMembers(rest, x, j - 1);
          var k :| 0 <= k < |rest| && rest[k] == tail[j - 1];
          assert s[0] == r[i] && s[k + 1] == r[j];
        }
      }
    }
  }

  lemma EarlierBehind(s: seq<Org>, a: Org, b: Org)
    requires s != [] && Earlier(s[1..], a, b)
    ensures Earlier(s, a, b)
  {
    var i, j :| 0 <= i < j < |s| - 1 && s[1..][i] == a && s[1..][j] == b;
    assert s[i + 1] == a && s[j + 1] == b;
  }

  lemma {:induction false} WithoutKeepsMembers(s: seq<Org>, x: Org, i: nat)
    requires i < |Without(s, x)|
    ensures Without(s, x)[i] in s
  {
    if s[0] == x {
      WithoutKeepsMembers(s[1..], x, i);
    } else if i > 0 {
      WithoutKeepsMembers(s[1..], x, i - 1);
    }
  }

  /** Inserting makes the key the most recent one. The others keep their order, and one of them is dropped, the oldest,
      exactly when the key is new and the list is full. */
  lemma PutIsMostRecent(s: seq<Org>, x: Org, cap: nat)
    requires Distinct(s) && |s| <= cap && 0 < cap
    ensures var (r, n) := (Put(s, x, cap), |Put(s, x, cap)| - 1);
      && n >= 0 && r[n] == x && KeepsOrder(s, r[..n])
      && (forall y :: y in r[..n] <==> y in s && y != x && !(x !in s && |s| == cap && y == s[0]))
  {
    PutKeeps(s, x, cap);
    WithoutKeepsOrder(s, x);
    var (r, n) := (Put(s, x, cap), |Put(s, x, cap)| - 1);
    assert r == r[..n] + [x];
    AppendDistinct(r[..n], x);
    if x !in s {
      forall i, j | 0 <= i < j < n ensures Earlier(s, r[i], r[j]) {
        if |s| >= cap { assert s[i + 1] == r[i] && s[j + 1] == r[j]; } else { assert s[i] == r[i] && s[j] == r[j]; }
      }
    } else {
      assert r[..n] == Without(s, x);
    }
  }

  /** Where an admission puts the org: a known one becomes the most recent of `am` and is in no other queue, a new one
      becomes the last of `a1in` and moves nothing else. */
  lemma PlaceIsMostRecent(q: Queues, org: Org, amCap: nat)
    requires Disjoint(q) && |q.am| <= amCap && 0 < amCap
    ensures var p := Place(q, org, amCap);
      if Queued(q, org) || org in q.a1out then
        && p.am != [] && p.am[|p.am| - 1] == org && org !in p.a1in && org !in p.a1out
        && KeepsOrder(q.am, p.am[..|p.am| - 1]) && KeepsOrder(q.a1in, p.a1in) && KeepsOrder(q.a1out, p.a1out)
      else p == q.(a1in := q.a1in + [org])
  {
    PutIsMostRecent(q.am, org, amCap);
    WithoutKeeps(q.a1in, org);
    WithoutKeeps(q.a1out, org);
    WithoutKeepsOrder(q.a1in, org);
    WithoutKeepsOrder(q.a1out, org);
    SameOrder(q.a1in);
    SameOrder(q.a1out);
    hide Put, Without, KeepsOrder, Distinct;
  }

  lemma SameOrder(s: seq<Org>)
    ensures KeepsOrder(s, s)
  {
  }

  /** After an admission the org is queued, and the only entry that stopped being queued is the one a full
      `am` pushed out. */
  lemma PlaceQueues(q: Queues, org: Org, amCap: nat)
    requires Disjoint(q) && |q.am| <= amCap && 0 < amCap
    ensures Disjoint(Place(q, org, amCap)) && |Place(q, org, amCap).am| <= amCap
      && |Place(q, org, amCap).a1out| <= |q.a1out|
    ensures forall x :: Queued(Place(q, org, amCap), x) <==>
      x == org || (Queued(q, x) && !(Overflows(q, org, amCap) && x == q.am[0]))
  {
    PutKeeps(q.am, org, amCap);
    WithoutKeeps(q.a1in, org);
    WithoutKeeps(q.a1out, org);
    AppendDistinct(q.a1in, org);
    hide Put, Without, Distinct;
  }

  // ----- graphs no queue can evict

  /** Resident graphs in neither queue: nothing will ever evict them. */
  ghost function Stranded(graphs: map<Org, nat>, q: Queues): map<Org, nat> {
    map x | x in graphs && !Queued(q, x) :: graphs[x]
  }

  /** Placing an org strands at most the entry that a full `am` pushed out. */
  lemma PlaceStrands(graphs: map<Org, nat>, q: Queues, org: Org, amCap: nat)
    requires Disjoint(q) && |q.am| <= amCap && 0 < amCap
    ensures !Overflows(q, org, amCap) ==>
      Stranded(graphs, Place(q, org, amCap)) == Stranded(graphs, q) - {org}
    ensures Overflows(q, org, amCap) ==>
      Stranded(graphs, Place(q, org, amCap)) == if q.am[0] in graphs
        then (Stranded(graphs, q) - {org})[q.am[0] := graphs[q.am[0]]] else Stranded(graphs, q) - {org}
  {
    PlaceQueues(q, org, amCap);
    hide Place, Disjoint;
  }

  /** Evicting a queued org leaves the stranded graphs as they were. */
  lemma EvictKeepsStranded(graphs: map<Org, nat>, q: Queues, q': Queues, org: Org)
    requires Queued(q, org) && forall x :: Queued(q', x) <==> Queued(q, x) && x != org
    ensures Stranded(graphs - {org}, q') == Stranded(graphs, q)
  {
  }

  lemma PopFirst(s: seq<Org>)
    requires s != [] && Distinct(s)
    ensures Distinct(s[1..]) && forall x :: x in s[1..] <==> x in s && x != s[0]
  {
    assert s == [s[0]] + s[1..];
    forall i, j | 0 <= i < j < |s[1..]| ensures s[1..][i] != s[1..][j] { assert s[1 + i] != s[1 + j]; }
    forall i | 0 <= i < |s[1..]| ensures s[1..][i] != s[0] { assert s[0] != s[1 + i]; }
  }

  /** What eviction does to the queues: the oldest of `a1in` becomes a ghost, otherwise the least recently
      used of `am` goes. */
  function EvictOne(q: Queues, ghostCap: nat): Queues
    requires q.a1in != [] || q.am != []
  {
    if q.a1in != [] then q.(a1in := q.a1in[1..], a1out := Put(q.a1out, q.a1in[0], ghostCap)) else q.(am := q.am[1..])
  }

  function Victim(q: Queues): Org
    requires q.a1in != [] || q.am != []
  {
    if q.a1in != [] then q.a1in[0] else q.am[0]
  }

  lemma EvictOneQueues(q: Queues, ghostCap: nat)
    requires Disjoint(q) && (q.a1in != [] || q.am != []) && |q.a1out| <= ghostCap && 0 < ghostCap
    ensures Disjoint(EvictOne(q, ghostCap)) && |EvictOne(q, ghostCap).a1out| <= ghostCap
      && |EvictOne(q, ghostCap).am| <= |q.am|
    ensures Queued(q, Victim(q)) && forall x :: Queued(EvictOne(q, ghostCap), x) <==> Queued(q, x) && x != Victim(q)
  {
    if q.a1in != [] {
      PopFirst(q.a1in);
      PutKeeps(q.a1out, q.a1in[0], ghostCap);
    } else {
      PopFirst(q.am);
    }
    hide Put, Distinct;
  }

  // ----- no more is evicted than must be

  /** The orgs in line for eviction: oldest of `a1in` first, then least recent of `am`. */
  function Line(q: Queues): seq<Org> { q.a1in + q.am }

  ghost function Gone(q: Queues, n: nat): set<Org>
    requires n <= |Line(q)|
  {
    set x | x in Line(q)[..n]
  }

  lemma GoneMore(q: Queues, n: nat)
    requires n < |Line(q)|
    ensures Gone(q, n + 1) == Gone(q, n) + {Line(q)[n]}
    ensures Disjoint(q) ==> Line(q)[n] !in Gone(q, n)
  {
    assert Line(q)[..n + 1] == Line(q)[..n] + [Line(q)[n]];
    hide Disjoint;
    if Disjoint(q) { LineIsDistinct(q, n); }
  }

  lemma DropOneMore(graphs: map<Org, nat>, gone: set<Org>, x: Org)
    ensures graphs - gone - {x} == graphs - (gone + {x})
    ensures x !in gone ==> Resident(graphs - gone, x) == Resident(graphs, x)
  {
  }

  /** The last `n` at most. */
  function LastOf(s: seq<Org>, n: nat): seq<Org> { if |s| <= n then s else s[|s| - n..] }

  /** Taking the first `n` orgs off `a1in` and then `am`: those from `a1in` become the newest ghosts. */
  ghost predicate Dequeues(q: Queues, q': Queues, n: nat, ghostCap: nat) {
    var k := Min(n, |q.a1in|);
    && n <= |Line(q)|
    && q'.a1in == q.a1in[k..] && q'.am == q.am[n - k..]
    && q'.a1out == LastOf(q.a1out + q.a1in[..k], ghostCap)
  }

  /** The graphs dropped are those of the first orgs in line, and without the last of them the counter would still be
      over the budget. */
  ghost predicate JustEnough(graphs: map<Org, nat>, q: Queues, graphs': map<Org, nat>, q': Queues, bytes: nat,
      budget: nat, ghostCap: nat) {
    exists n :: Drops(graphs, q, graphs', q', n, bytes, budget, ghostCap)
  }

  ghost predicate Drops(graphs: map<Org, nat>, q: Queues, graphs': map<Org, nat>, q': Queues, n: nat, bytes: nat,
      budget: nat, ghostCap: nat) {
    && Dequeues(q, q', n, ghostCap)
    && graphs' == graphs - Gone(q, n)
    && (n > 0 ==> bytes + Resident(graphs, Line(q)[n - 1]) > budget)
  }

  lemma DropsNone(graphs: map<Org, nat>, q: Queues, bytes: nat, budget: nat, ghostCap: nat)
    requires |q.a1out| <= ghostCap
    ensures Drops(graphs, q, graphs, q, 0, bytes, budget, ghostCap)
  {
    assert q.a1out + q.a1in[..0] == q.a1out;
    assert graphs - Gone(q, 0) == graphs;
  }

  lemma PutNew(s: seq<Org>, x: Org, cap: nat)
    requires 0 < cap && x !in s
    ensures Put(LastOf(s, cap), x, cap) == LastOf(s + [x], cap)
  {
  }

  lemma LineIsDistinct(q: Queues, n: nat)
    requires Disjoint(q) && n < |Line(q)|
    ensures Line(q)[n] !in Line(q)[..n] && (n < |q.a1in| ==> Line(q)[n] !in q.a1out + q.a1in[..n])
  {
    forall k | 0 <= k < n ensures Line(q)[k] != Line(q)[n] {
      if n < |q.a1in| { assert q.a1in[k] != q.a1in[n]; }
      else if k >= |q.a1in| { assert q.am[k - |q.a1in|] != q.am[n - |q.a1in|]; }
      else { assert q.a1in[k] in q.a1in; }
    }
    if n < |q.a1in| { assert Line(q)[..n] == q.a1in[..n] && Line(q)[n] in q.a1in; }
  }

  lemma DequeuesMore(q: Queues, q': Queues, n: nat, ghostCap: nat)
    requires Dequeues(q, q', n, ghostCap) && Disjoint(q) && 0 < ghostCap && (q'.a1in != [] || q'.am != [])
    ensures n < |Line(q)| && Line(q)[n] == Victim(q')
    ensures Dequeues(q, EvictOne(q', ghostCap), n + 1, ghostCap)
  {
    hide Disjoint, Put, LastOf;
    if n < |q.a1in| {
      LineIsDistinct(q, n);
      PutNew(q.a1out + q.a1in[..n], q.a1in[n], ghostCap);
      assert q.a1out + q.a1in[..n] + [q.a1in[n]] == q.a1out + q.a1in[..n + 1];
      assert q.a1in[n..][1..] == q.a1in[n + 1..];
    } else {
      assert q.am[n - |q.a1in|..][1..] == q.am[n + 1 - |q.a1in|..];
    }
  }

  /** One more eviction, made because the counter was over the budget. */
  lemma DropsMore(graphs: map<Org, nat>, q: Queues, graphs': map<Org, nat>, q': Queues, n: nat, over: nat, bytes: nat,
      budget: nat, ghostCap: nat)
    requires Drops(graphs, q, graphs', q', n, over, budget, ghostCap)
    requires Disjoint(q) && 0 < ghostCap && (q'.a1in != [] || q'.am != []) && over > budget
    requires over == bytes + Resident(graphs', Victim(q'))
    ensures Drops(graphs, q, graphs' - {Victim(q')}, EvictOne(q', ghostCap), n + 1, bytes, budget, ghostCap)
  {
    hide Dequeues, Disjoint, EvictOne, Victim, Gone, Line;
    DequeuesMore(q, q', n, ghostCap);
    GoneMore(q, n);
    DropOneMore(graphs, Gone(q, n), Line(q)[n]);
  }

  lemma NothingQueued(graphs: map<Org, nat>, q: Queues)
    requires q.a1in == [] && q.am == []
    ensures Stranded(graphs, q) == graphs
  {
  }

  lemma {:induction false} SumBound(small: map<Org, nat>, big: map<Org, nat>)
    requires forall x :: x in small ==> x in big && big[x] == small[x]
    ensures Sum(small) <= Sum(big)
    decreases |small|
  {
    if small != map[] {
      var k :| k in small;
      SumRemove(small, k);
      SumRemove(big, k);
      SumBound(small - {k}, big - {k});
    }
  }

  function Resident(graphs: map<Org, nat>, org: Org): nat { if org in graphs then graphs[org] else 0 }

  /** What reaches the cache: whole snapshots, deltas, stale writes, admission hooks and evict messages. */
  datatype Event =
    | Reseeded(org: Org, size: nat)
    | Applied(org: Org, size: nat)
    | Stale(org: Org)
    | Touched(org: Org)
    | Evicted(org: Org)

  class Cache {
    const budget: nat
    const amCap: nat
    const ghostCap: nat
    var a1in: seq<Org>
    var am: seq<Org>
    var a1out: seq<Org>
    var bytes: nat
    var graphs: map<Org, nat>
    ghost var drift: nat  // bytes the counter still holds for graphs that evict messages dropped

    function Queue(): Queues reads this { Queues(a1in, am, a1out) }

    ghost predicate Shape() reads this {
      0 < amCap && 0 < ghostCap && Disjoint(Queue()) && |am| <= amCap && |a1out| <= ghostCap
    }

    /** The counter is the summed size of the resident graphs, plus the drift. */
    ghost predicate Valid() reads this { Shape() && bytes == Sum(graphs) + drift }

    /** Bytes no eviction can reclaim. */
    ghost function StrandedBytes(): nat reads this { Sum(Stranded(graphs, Queue())) }

    constructor (budget: nat)
      ensures Valid() && this.budget == budget && graphs == map[] && Queue() == Queues([], [], [])
      ensures bytes == drift == StrandedBytes() == 0
    {
      this.budget := budget;
      var caps := EntryBudget(budget);
      ghostCap, amCap := caps.0, caps.1;
      a1in, am, a1out, bytes, graphs, drift := [], [], [], 0, map[], 0;
      new;
      assert Stranded(graphs, Queue()) == map[];
    }

    /** Evicts until the counter is within budget or nothing is queued. */
    method Shrink()
      requires Valid()
      modifies this`a1in, this`am, this`a1out, this`bytes, this`graphs
      ensures Valid() && StrandedBytes() == old(StrandedBytes())
      ensures bytes <= budget || (a1in == [] && am == [])
      ensures forall x :: x in graphs ==> x in old(graphs) && graphs[x] == old(graphs)[x]
      ensures JustEnough(old(graphs), old(Queue()), graphs, Queue(), bytes, budget, ghostCap)
      ensures old(bytes) <= budget ==> Queue() == old(Queue()) && graphs == old(graphs)
    {
      ghost var n := 0;
      DropsNone(graphs, Queue(), bytes, budget, ghostCap);
      hide Drops;
      while bytes > budget && (a1in != [] || am != [])
        invariant Valid() && StrandedBytes() == old(StrandedBytes())
        invariant forall x :: x in graphs ==> x in old(graphs) && graphs[x] == old(graphs)[x]
        invariant old(bytes) <= budget ==> Queue() == old(Queue()) && graphs == old(graphs) && bytes == old(bytes)
        invariant Drops(old(graphs), old(Queue()), graphs, Queue(), n, bytes, budget, ghostCap)
        decreases |a1in| + |am|
      {
        ghost var (q, held, over) := (Queue(), graphs, bytes);
        EvictNext();
        DropsMore(old(graphs), old(Queue()), held, q, n, over, bytes, budget, ghostCap);
        n := n + 1;
      }
    }

    method EvictNext()
      requires Valid() && (a1in != [] || am != [])
      modifies this`a1in, this`am, this`a1out, this`bytes, this`graphs
      ensures Valid() && StrandedBytes() == old(StrandedBytes())
      ensures Queue() == EvictOne(old(Queue()), ghostCap)
      ensures graphs == old(graphs) - {Victim(old(Queue()))}
      ensures old(bytes) == bytes + Resident(old(graphs), Victim(old(Queue())))
      ensures |a1in| + |am| < old(|a1in| + |am|)
    {
      ghost var q := Queue();
      EvictOneQueues(q, ghostCap);
      EvictKeepsStranded(graphs, q, EvictOne(q, ghostCap), Victim(q));
      hide Stranded, Disjoint, Put;
      var evicted;
      if a1in != [] {
        evicted := a1in[0];
        a1in := a1in[1..];
        a1out := Put(a1out, evicted, ghostCap);
      } else {
        evicted := am[0];
        am := am[1..];
      }
      SumUpdate(graphs, evicted, 0);
      if evicted in graphs {
        bytes := SatSub(bytes, graphs[evicted]);
      }
      graphs := graphs - {evicted};
    }

    /** Places the org in a queue, then enforces the budget. The counter ends within it exactly when the graphs
        no queue can evict and the drift fit together; otherwise every queued graph has gone. */
    method Admit(org: Org)
      requires Valid()
      modifies this`a1in, this`am, this`a1out, this`bytes, this`graphs
      ensures Valid()
      ensures StrandedBytes() == Sum(Stranded(old(graphs), Place(old(Queue()), org, amCap)))
      ensures bytes <= budget <==> StrandedBytes() + drift <= budget
      ensures old(StrandedBytes()) == 0 && !Overflows(old(Queue()), org, amCap) ==> StrandedBytes() == 0
      ensures bytes > budget ==> a1in == [] && am == [] && Sum(graphs) == StrandedBytes()
      ensures JustEnough(old(graphs), Place(old(Queue()), org, amCap), graphs, Queue(), bytes, budget, ghostCap)
      ensures old(bytes) <= budget ==> bytes <= budget && graphs == old(graphs)
      ensures forall x :: x in graphs ==> x in old(graphs) && graphs[x] == old(graphs)[x]
    {
      hide Stranded, Disjoint, Put, Without, JustEnough;
      PlaceQueues(Queue(), org, amCap);
      AdmitStrands(graphs, Queue(), org, amCap);
      if org in am {
        am := Put(am, org, amCap);
      } else if org in a1out {
        am := Put(am, org, amCap);
        a1out := Without(a1out, org);
      } else if org in a1in {
        a1in := Without(a1in, org);
        am := Put(am, org, amCap);
      } else {
        a1in := a1in + [org];
      }
      Shrink();
      StrandedFits(graphs, Queue());
      if a1in == [] && am == [] { NothingQueued(graphs, Queue()); }
    }

    /** Publishes a whole snapshot: reseed, or direct publication. A counter that was within budget stays
        within it, even when a full `am` pushes an org out; so do the resident graphs, whatever has drifted. */
    method Publish(org: Org, size: nat)
      requires Valid()
      modifies this`a1in, this`am, this`a1out, this`bytes, this`graphs
      ensures Valid()
      ensures StrandedBytes() == Sum(Stranded(old(graphs)[org := size], Place(old(Queue()), org, amCap)))
      ensures bytes <= budget <==> StrandedBytes() + drift <= budget
      ensures JustEnough(old(graphs)[org := size], Place(old(Queue()), org, amCap), graphs, Queue(), bytes, budget,
        ghostCap)
      ensures old(StrandedBytes()) == 0 && !Overflows(old(Queue()), org, amCap) ==> StrandedBytes() == 0
      ensures old(bytes) <= budget ==> bytes <= budget
      ensures Sum(old(graphs)) <= budget ==> Sum(graphs) <= budget
      ensures forall x :: x in graphs ==> x in old(graphs)[org := size] && graphs[x] == old(graphs)[org := size][x]
      ensures old(bytes) + size <= budget + Resident(old(graphs), org) ==> graphs == old(graphs)[org := size]
    {
      SumUpdate(graphs, org, size);
      PlacedFits(graphs, Queue(), org, size, amCap);
      PublishStrands(graphs, Queue(), org, size, amCap);
      var resident := Resident(graphs, org);
      bytes := SatSub(bytes, resident);
      bytes := bytes + size;
      graphs := graphs[org := size];
      hide Stranded, Disjoint, Place, JustEnough;
      Admit(org);
    }

    /** Applies a delta to the org's graph, creating an empty one first if it has none. */
    method ApplyDelta(org: Org, size: nat)
      requires Valid()
      modifies this`a1in, this`am, this`a1out, this`bytes, this`graphs
      ensures Valid()
      ensures StrandedBytes() == Sum(Stranded(old(graphs)[org := size], Place(old(Queue()), org, amCap)))
      ensures bytes <= budget <==> StrandedBytes() + drift <= budget
      ensures JustEnough(old(graphs)[org := size], Place(old(Queue()), org, amCap), graphs, Queue(), bytes, budget,
        ghostCap)
      ensures old(StrandedBytes()) == 0 && !Overflows(old(Queue()), org, amCap) ==> StrandedBytes() == 0
      ensures old(bytes) <= budget ==> bytes <= budget
      ensures Sum(old(graphs)) <= budget ==> Sum(graphs) <= budget
      ensures forall x :: x in graphs ==> x in old(graphs)[org := size] && graphs[x] == old(graphs)[org := size][x]
      ensures old(bytes) + size <= budget + Resident(old(graphs), org) ==> graphs == old(graphs)[org := size]
    {
      SumUpdate(graphs, org, size);
      PlacedFits(graphs, Queue(), org, size, amCap);
      PublishStrands(graphs, Queue(), org, size, amCap);
      var before := Resident(graphs, org);
      if size >= before {
        bytes := bytes + (size - before);
      } else {
        bytes := SatSub(bytes, before - size);
      }
      graphs := graphs[org := size];
      hide Stranded, Disjoint, Place, JustEnough;
      Admit(org);
    }

    /** A stale local write still creates the org's empty graph, and queues nothing. */
    method TouchStale(org: Org)
      requires Valid()
      modifies this`graphs
      ensures Valid() && StrandedBytes() == old(StrandedBytes()) && Sum(graphs) == Sum(old(graphs))
      ensures graphs == if org in old(graphs) then old(graphs) else old(graphs)[org := 0]
    {
      if org !in graphs {
        SumUpdate(graphs, org, 0);
        TouchStrands(graphs, Queue(), org);
        hide Stranded, Disjoint;
        graphs := graphs[org := 0];
      }
    }

    /** The evict message drops the graph and nothing else: the counter keeps the dropped bytes for good. */
    method EvictMessage(org: Org)
      requires Valid()
      modifies this`graphs, this`drift
      ensures Valid() && graphs == old(graphs) - {org}
      ensures drift == old(drift) + Resident(old(graphs), org)
      ensures Sum(graphs) <= Sum(old(graphs))
    {
      SumUpdate(graphs, org, 0);
      drift := drift + Resident(graphs, org);
      graphs := graphs - {org};
    }

    method Handle(e: Event)
      requires Valid()
      modifies this`a1in, this`am, this`a1out, this`bytes, this`graphs, this`drift
      ensures Valid() && (Sum(old(graphs)) <= budget ==> Sum(graphs) <= budget)
      ensures old(bytes) <= budget ==> bytes <= budget
      ensures drift == old(drift) + if e.Evicted? then Resident(old(graphs), e.org) else 0
    {
      match e
      case Reseeded(org, size) => Publish(org, size);
      case Applied(org, size) => ApplyDelta(org, size);
      case Stale(org) => TouchStale(org);
      case Touched(org) =>
        StrandedFits(graphs, Place(Queue(), org, amCap));
        Admit(org);
      case Evicted(org) => EvictMessage(org);
    }

    /** Over any run of events the counter stays within budget, even when a full `am` pushes orgs out. It is the
        summed size of the resident graphs plus all that evict messages dropped, so that much of the budget is
        lost to every later graph. */
    method Serve(events: seq<Event>) returns (ghost dropped: nat)
      requires Valid() && bytes <= budget
      modifies this`a1in, this`am, this`a1out, this`bytes, this`graphs, this`drift
      ensures Valid() && bytes <= budget && drift == old(drift) + dropped
      ensures Sum(graphs) <= budget - drift
      ensures (forall i :: 0 <= i < |events| ==> !events[i].Evicted?) ==> dropped == 0
    {
      dropped := 0;
      for i := 0 to |events|
        invariant Valid() && bytes <= budget && drift == old(drift) + dropped
        invariant (forall k :: 0 <= k < i ==> !events[k].Evicted?) ==> dropped == 0
      {
        var e := events[i];
        dropped := dropped + if e.Evicted? then Resident(graphs, e.org) else 0;
        Handle(e);
      }
    }
  }

  /** An evict message can starve the cache: after one for a graph as large as the budget, no graph that is not
      empty stays resident. */
  method DroppedGraphStarves(budget: nat, a: Org, b: Org, size: nat) returns (c: Cache)
    requires a != b && size > 0
    ensures fresh(c) && c.Valid() && c.budget == budget && c.drift == budget && b !in c.graphs
  {
    hide JustEnough, Place;
    c := new Cache(budget);
    c.Publish(a, budget);
    c.EvictMessage(a);
    c.Publish(b, size);
    if b in c.graphs { SumRemove(c.graphs, b); }
  }

  lemma {:induction false} StrandedFits(graphs: map<Org, nat>, q: Queues)
    ensures Sum(Stranded(graphs, q)) <= Sum(graphs)
  {
    SumBound(Stranded(graphs, q), graphs);
  }

  lemma TouchStrands(graphs: map<Org, nat>, q: Queues, org: Org)
    requires org !in graphs
    ensures Sum(Stranded(graphs[org := 0], q)) == Sum(Stranded(graphs, q))
  {
    SumUpdate(Stranded(graphs, q), org, 0);
    if !Queued(q, org) {
      assert Stranded(graphs[org := 0], q) == Stranded(graphs, q)[org := 0];
    } else {
      assert Stranded(graphs[org := 0], q) == Stranded(graphs, q);
    }
  }

  /** An admission without overflow strands nothing new. */
  lemma AdmitStrands(graphs: map<Org, nat>, q: Queues, org: Org, amCap: nat)
    requires Disjoint(q) && |q.am| <= amCap && 0 < amCap
    ensures !Overflows(q, org, amCap) ==> Sum(Stranded(graphs, Place(q, org, amCap))) <= Sum(Stranded(graphs, q))
  {
    PlaceStrands(graphs, q, org, amCap);
    hide Place, Disjoint, Overflows;
    SumBound(Stranded(graphs, q) - {org}, Stranded(graphs, q));
  }

  /** A publication without overflow strands nothing new. */
  lemma PublishStrands(graphs: map<Org, nat>, q: Queues, org: Org, size: nat, amCap: nat)
    requires Disjoint(q) && |q.am| <= amCap && 0 < amCap
    ensures !Overflows(q, org, amCap) ==>
      Sum(Stranded(graphs[org := size], Place(q, org, amCap))) <= Sum(Stranded(graphs, q))
  {
    PlaceStrands(graphs[org := size], q, org, amCap);
    hide Place, Disjoint, Overflows;
    SumBound(Stranded(graphs[org := size], q) - {org}, Stranded(graphs, q));
  }

  /** What a publication leaves stranded was resident before it, so it never outgrows the old total. */
  lemma PlacedFits(graphs: map<Org, nat>, q: Queues, org: Org, size: nat, amCap: nat)
    requires Disjoint(q) && |q.am| <= amCap && 0 < amCap
    ensures Sum(Stranded(graphs[org := size], Place(q, org, amCap))) <= Sum(graphs)
  {
    PlaceQueues(q, org, amCap);
    hide Place, Disjoint;
    SumBound(Stranded(graphs[org := size], Place(q, org, amCap)), graphs);
  }
}
