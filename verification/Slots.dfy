/** `GraphSlot`: one atomically published snapshot plus the writer's reuse state, as a state machine.
    Readers take counted references at any moment; the single writer, under its lock, reuses a retired
    buffer only while nobody else holds it, catches it up from the journal, applies the new delta one
    operation at a time, and swaps. Buffers live in an explicit heap and are rewritten in place, so two
    holders of one buffer see the same contents. A run is any interleaving of reader and writer steps. */
module Slots {
  import opened Common
  import opened PlainGraphs

  const RETIRED_BUFFERS: nat := 4

  /** The address of a snapshot buffer. */
  type Buffer = nat

  datatype Retired = Retired(generation: nat, snapshot: Buffer)

  datatype Entry = Entry(generation: nat, delta: seq<Delta>)

  /** Where the writer is: outside the lock, holding a buffer it took off the retired queue, or
      rewriting its private next buffer with `todo` still to apply. */
  datatype Writer =
    | Idle
    | Claimed(taken: Retired, delta: seq<Delta>)
    | Building(next: Buffer, todo: seq<Delta>, delta: seq<Delta>)

  /** What an observer of the slot sees happen. */
  datatype Event = Stored(graph: Graph) | Published(delta: seq<Delta>)

  /** The graph a run of events must leave published: the deltas since the last store, folded over it. */
  ghost function Replay(log: seq<Event>): Graph {
    if log == [] then EMPTY
    else
      match log[|log| - 1]
      case Stored(g) => g
      case Published(delta) => ApplyAll(Replay(log[..|log| - 1]), delta)
  }

  /** The graph after the first `n` publications since the last store. */
  ghost function After(base: Graph, published: seq<seq<Delta>>, n: nat): Graph
    requires n <= |published|
  {
    ApplyAll(base, Flat(published[..n]))
  }

  function DeltasFrom(journal: seq<Entry>, generation: nat): seq<Delta> {
    if journal == [] then []
    else (if journal[0].generation > generation then journal[0].delta else []) + DeltasFrom(journal[1..], generation)
  }

  /** The journal holds one entry per generation in (`generation - |journal|`, `generation`]. */
  ghost predicate JournalCovers(journal: seq<Entry>, published: seq<seq<Delta>>, epoch: nat, generation: nat) {
    && generation == epoch + |published| && |journal| <= |published|
    && forall i :: 0 <= i < |journal| ==>
         journal[i] == Entry(generation - |journal| + 1 + i, published[|published| - |journal| + i])
  }

  /** The suffix of the journal after generation `g` is exactly the publications after `g`. */
  lemma {:induction false} JournalSuffix(journal: seq<Entry>, published: seq<seq<Delta>>, epoch: nat, generation: nat,
      g: nat)
    requires JournalCovers(journal, published, epoch, generation)
    requires generation - |journal| <= g <= generation
    ensures DeltasFrom(journal, g) == Flat(published[g - epoch..])
    decreases |journal|
  {
    if journal == [] {
      assert published[g - epoch..] == [];
    } else if journal[0].generation <= g {
      JournalSuffix(journal[1..], published, epoch, generation, g);
    } else {
      assert published[g - epoch..] == [journal[0].delta] + published[g - epoch + 1..];
      FlatFirst(published[g - epoch..]);
      AllLater(journal[1..], published, epoch, generation, g);
      JournalSuffix(journal[1..], published, epoch, generation, g + 1);
    }
  }

  lemma {:induction false} AllLater(journal: seq<Entry>, published: seq<seq<Delta>>, epoch: nat, generation: nat,
      g: nat)
    requires JournalCovers(journal, published, epoch, generation) && generation - |journal| == g + 1
    ensures DeltasFrom(journal, g) == DeltasFrom(journal, g + 1)
  {
    LaterEntries(journal, g);
  }

  lemma {:induction false} LaterEntries(journal: seq<Entry>, g: nat)
    requires forall i :: 0 <= i < |journal| ==> journal[i].generation > g + 1
    ensures DeltasFrom(journal, g) == DeltasFrom(journal, g + 1)
  {
    if journal != [] { LaterEntries(journal[1..], g); }
  }

  /** Catching a buffer of generation `g` up and applying one more delta reaches the next publication. */
  lemma {:induction false} CatchUp(base: Graph, published: seq<seq<Delta>>, delta: seq<Delta>, n: nat)
    requires n <= |published|
    ensures ApplyAll(After(base, published, n), Flat(published[n..]) + delta)
         == After(base, published + [delta], |published| + 1)
  {
    var more := published + [delta];
    assert more[..|published| + 1] == published[..n] + (published[n..] + [delta]);
    FlatConcat(published[..n], published[n..] + [delta]);
    FlatConcat(published[n..], [delta]);
    FlatOne(delta);
    ApplyAllConcat(base, Flat(published[..n]), Flat(published[n..]) + delta);
  }

  lemma AfterAppend(base: Graph, published: seq<seq<Delta>>, delta: seq<Delta>, n: nat)
    requires n <= |published|
    ensures After(base, published + [delta], n) == After(base, published, n)
  {
    assert (published + [delta])[..n] == published[..n];
  }

  /** `heap` maps buffers to the graphs they stand for; `held` counts references outside the slot.
      `base`, `epoch`, `published` and `log` record the history the claims are about. */
  datatype State = State(
    heap: map<Buffer, Graph>,
    current: Buffer,
    generation: nat,
    retired: seq<Retired>,
    journal: seq<Entry>,
    held: multiset<Buffer>,
    writer: Writer,
    base: Graph,
    epoch: nat,
    published: seq<seq<Delta>>,
    log: seq<Event>)

  datatype Step =
    | Load                                  // a reader takes the published snapshot
    | CloneReference(buffer: Buffer)        // a reader copies a reference it has
    | Release(buffer: Buffer)               // a reader drops a reference
    | Adopt(at: Buffer, graph: Graph)       // a caller builds a snapshot of its own
    | Store(buffer: Buffer)                 // the writer publishes a snapshot a caller holds
    | Begin(at: Buffer, delta: seq<Delta>)  // the writer locks, and claims a free retired buffer or clones into `at`
    | BeginLocal(at: Buffer, memories: seq<Memory>, relationships: seq<Relationship>, lsn: nat)
    | Unwrap                                // the claimed buffer becomes the writer's own
    | ApplyNext                             // one operation is applied in place
    | Publish                               // swap, retire the old buffer, trim both queues

  function CountRetired(retired: seq<Retired>, b: Buffer): nat {
    if retired == [] then 0
    else (if retired[0].snapshot == b then 1 else 0) + CountRetired(retired[1..], b)
  }

  /** The reference count the writer inspects. */
  function StrongCount(s: State, b: Buffer): nat {
    s.held[b] + (if b == s.current then 1 else 0) + CountRetired(s.retired, b)
      + (if s.writer.Claimed? && s.writer.taken.snapshot == b then 1 else 0)
  }

  /** Position of the first retired buffer, from `i` on, that only the queue refers to. */
  function FirstFree(s: State, i: nat): (r: nat)
    requires i <= |s.retired|
    ensures i <= r <= |s.retired|
    ensures r < |s.retired| ==> StrongCount(s, s.retired[r].snapshot) == 1
    ensures forall k :: i <= k < r ==> StrongCount(s, s.retired[k].snapshot) != 1
    decreases |s.retired| - i
  {
    if i == |s.retired| || StrongCount(s, s.retired[i].snapshot) == 1 then i else FirstFree(s, i + 1)
  }

  function LocalDelta(memories: seq<Memory>, relationships: seq<Relationship>, lsn: nat): seq<Delta> {
    seq(|memories|, i requires 0 <= i < |memories| => UpsertMemory(memories[i]))
      + seq(|relationships|, i requires 0 <= i < |relationships| => UpsertRelationship(relationships[i]))
      + [AdvanceLocalLsn(lsn)]
  }

  /** A local batch with no rows and a stale frontier is not worth a publication. */
  predicate NothingLocal(s: State, memories: seq<Memory>, relationships: seq<Relationship>, lsn: nat)
    requires s.current in s.heap
  {
    memories == [] && relationships == [] && lsn <= s.heap[s.current].localLsn
  }

  predicate Enabled(s: State, step: Step) {
    match step
    case Load => true
    case CloneReference(b) => b in s.held
    case Release(b) => b in s.held
    case Adopt(b, _) => b !in s.heap
    case Store(b) => s.writer.Idle? && b in s.held && b in s.heap
    case Begin(b, _) => s.writer.Idle? && b !in s.heap && s.current in s.heap
    case BeginLocal(b, _, _, _) => s.writer.Idle? && b !in s.heap && s.current in s.heap
    case Unwrap => s.writer.Claimed?
    case ApplyNext => s.writer.Building? && s.writer.todo != [] && s.writer.next in s.heap
    case Publish => s.writer.Building? && s.writer.todo == []
  }

  /** The first free retired buffer is claimed; without one the published snapshot is cloned. */
  function Start(s: State, at: Buffer, delta: seq<Delta>): State
    requires s.current in s.heap
  {
    var i := FirstFree(s, 0);
    if i < |s.retired| then
      s.(retired := s.retired[..i] + s.retired[i + 1..], writer := Claimed(s.retired[i], delta))
    else
      s.(heap := s.heap[at := s.heap[s.current]], writer := Building(at, delta, delta))
  }

  /** Drops journal entries no retired buffer needs. */
  function TrimJournal(journal: seq<Entry>, oldest: nat): seq<Entry> {
    if journal == [] || journal[0].generation > oldest then journal else TrimJournal(journal[1..], oldest)
  }

  function Trim(retired: seq<Retired>): seq<Retired> {
    if |retired| > RETIRED_BUFFERS then retired[|retired| - RETIRED_BUFFERS..] else retired
  }

  /** The oldest retired generation. */
  function Oldest(retired: seq<Retired>): nat
    requires retired != []
  {
    if |retired| == 1 then retired[0].generation
    else Min(retired[0].generation, Oldest(retired[1..]))
  }

  function Swap(s: State): State
    requires s.writer.Building?
  {
    var generation := s.generation + 1;
    var retired := Trim(s.retired + [Retired(generation - 1, s.current)]);
    s.(current := s.writer.next,
       generation := generation,
       retired := retired,
       journal := TrimJournal(s.journal + [Entry(generation, s.writer.delta)], Oldest(retired)),
       writer := Idle,
       published := s.published + [s.writer.delta],
       log := s.log + [Published(s.writer.delta)])
  }

  function Next(s: State, step: Step): State
    requires Enabled(s, step)
  {
    match step
    case Load => s.(held := s.held + multiset{s.current})
    case CloneReference(b) => s.(held := s.held + multiset{b})
    case Release(b) => s.(held := s.held - multiset{b})
    case Adopt(b, g) => s.(heap := s.heap[b := g], held := s.held + multiset{b})
    case Store(b) =>
      s.(current := b, held := s.held - multiset{b}, generation := s.generation + 1, retired := [], journal := [],
         base := s.heap[b], epoch := s.generation + 1, published := [], log := s.log + [Stored(s.heap[b])])
    case Begin(b, delta) => Start(s, b, delta)
    case BeginLocal(b, ms, rs, lsn) => if NothingLocal(s, ms, rs, lsn) then s else Start(s, b, LocalDelta(ms, rs, lsn))
    case Unwrap =>
      var (taken, delta) := (s.writer.taken, s.writer.delta);
      s.(writer := Building(taken.snapshot, DeltasFrom(s.journal, taken.generation) + delta, delta))
    case ApplyNext =>
      var w := s.writer;
      s.(heap := s.heap[w.next := Apply(s.heap[w.next], w.todo[0])], writer := w.(todo := w.todo[1..]))
    case Publish => Swap(s)
  }

  /** A run: steps that cannot be taken yet are waited out. */
  function Run(s: State, steps: seq<Step>): State
    decreases |steps|
  {
    if steps == [] then s
    else Run(if Enabled(s, steps[0]) then Next(s, steps[0]) else s, steps[1..])
  }

  function New(b: Buffer, g: Graph): State {
    State(map[b := g], b, 0, [], [], multiset{}, Idle, g, 0, [], [Stored(g)])
  }

  // ----- the invariant

  /** A buffer no reader, no queue and no publication refers to. */
  ghost predicate Private(s: State, b: Buffer) {
    b !in s.held && b != s.current && forall i :: 0 <= i < |s.retired| ==> s.retired[i].snapshot != b
  }

  /** A retired buffer is the fold up to its generation, and the journal reaches back to it. */
  ghost predicate Behind(s: State, r: Retired) {
    && r.snapshot in s.heap && s.epoch <= r.generation < s.epoch + |s.published|
    && s.generation - |s.journal| <= r.generation
    && s.heap[r.snapshot] == After(s.base, s.published, r.generation - s.epoch)
  }

  ghost predicate QueuesOk(s: State) {
    && JournalCovers(s.journal, s.published, s.epoch, s.generation)
    && |s.retired| <= RETIRED_BUFFERS
    && (forall i :: 0 <= i < |s.retired| ==> Behind(s, s.retired[i]) && s.retired[i].snapshot != s.current)
    && (forall i, j :: 0 <= i < j < |s.retired| ==>
          s.retired[i].generation < s.retired[j].generation && s.retired[i].snapshot != s.retired[j].snapshot)
  }

  /** Between publications the journal holds exactly the generations after the oldest retired one. */
  ghost predicate JournalTight(s: State) {
    s.writer.Idle? ==> |s.journal| == if s.retired == [] then 0 else s.generation - s.retired[0].generation
  }

  ghost predicate WriterOk(s: State) {
    match s.writer
    case Idle => true
    case Claimed(taken, _) => Private(s, taken.snapshot) && Behind(s, taken)
    case Building(next, todo, delta) =>
      && Private(s, next) && next in s.heap
      && ApplyAll(s.heap[next], todo) == After(s.base, s.published + [delta], |s.published| + 1)
  }

  ghost predicate Inv(s: State) {
    && s.current in s.heap && (forall b :: b in s.held ==> b in s.heap)
    && s.heap[s.current] == After(s.base, s.published, |s.published|)
    && s.heap[s.current] == Replay(s.log)
    && QueuesOk(s) && JournalTight(s) && WriterOk(s)
  }

  // ----- every step keeps it

  /** The buffer the writer has for itself, if any. */
  ghost predicate Writing(s: State, b: Buffer) {
    || (s.writer.Claimed? && s.writer.taken.snapshot == b)
    || (s.writer.Building? && s.writer.next == b)
  }

  /** Reader traffic on buffers the writer does not own disturbs nothing. */
  lemma HeldKeepsInv(s: State, held: multiset<Buffer>)
    requires Inv(s) && forall b :: b in held ==> b in s.heap && !Writing(s, b)
    ensures Inv(s.(held := held))
  {
    hide After, Replay, JournalCovers, ApplyAll;
    assert forall r :: Behind(s.(held := held), r) <==> Behind(s, r);
  }

  /** So does a buffer nobody else knows. */
  lemma FreshKeepsInv(s: State, b: Buffer, g: Graph)
    requires Inv(s) && b !in s.heap
    ensures Inv(s.(heap := s.heap[b := g]))
  {
    hide After, Replay, JournalCovers, ApplyAll;
    assert forall r :: Behind(s, r) ==> Behind(s.(heap := s.heap[b := g]), r);
  }

  lemma ReadersKeepInv(s: State, step: Step)
    requires Inv(s) && Enabled(s, step)
    requires step.Load? || step.CloneReference? || step.Release? || step.Adopt?
    ensures Inv(Next(s, step))
  {
    hide After, Replay, JournalCovers, ApplyAll, QueuesOk, JournalTight;
    match step
    case Load => HeldKeepsInv(s, s.held + multiset{s.current});
    case CloneReference(b) => HeldKeepsInv(s, s.held + multiset{b});
    case Release(b) => HeldKeepsInv(s, s.held - multiset{b});
    case Adopt(b, g) =>
      FreshKeepsInv(s, b, g);
      HeldKeepsInv(s.(heap := s.heap[b := g]), s.held + multiset{b});
    case _ =>
  }

  lemma StoreKeepsInv(s: State, b: Buffer)
    requires Inv(s) && Enabled(s, Store(b))
    ensures Inv(Next(s, Store(b)))
  {
  }

  /** Only the queue refers to a buffer counted once. */
  lemma CountedOnce(s: State, i: nat)
    requires Inv(s) && s.writer.Idle? && i < |s.retired| && StrongCount(s, s.retired[i].snapshot) == 1
    ensures s.retired[i].snapshot !in s.held
  {
    CountsSelf(s.retired, i);
  }

  lemma {:induction false} CountsSelf(retired: seq<Retired>, i: nat)
    requires i < |retired|
    ensures CountRetired(retired, retired[i].snapshot) >= 1
  {
    if i > 0 { CountsSelf(retired[1..], i - 1); }
  }

  /** Taking a free buffer off the queue makes it the writer's. */
  lemma ClaimKeepsInv(s: State, i: nat, delta: seq<Delta>)
    requires Inv(s) && s.writer.Idle? && i < |s.retired| && s.retired[i].snapshot !in s.held
    ensures Inv(s.(retired := s.retired[..i] + s.retired[i + 1..], writer := Claimed(s.retired[i], delta)))
  {
    hide After, Replay, JournalCovers, ApplyAll;
    var t := s.(retired := s.retired[..i] + s.retired[i + 1..], writer := Claimed(s.retired[i], delta));
    assert forall r :: Behind(t, r) <==> Behind(s, r);
    assert forall k :: 0 <= k < |t.retired| ==> t.retired[k] == s.retired[if k < i then k else k + 1];
  }

  /** The writer's next buffer, on its way to the next publication. */
  lemma {:induction false} BuildKeepsInv(s: State, next: Buffer, todo: seq<Delta>, delta: seq<Delta>)
    requires Inv(s) && Private(s, next) && next in s.heap
    requires ApplyAll(s.heap[next], todo) == After(s.base, s.published + [delta], |s.published| + 1)
    ensures Inv(s.(writer := Building(next, todo, delta)))
  {
    hide After, Replay, JournalCovers, ApplyAll;
    assert forall r :: Behind(s.(writer := Building(next, todo, delta)), r) <==> Behind(s, r);
  }

  lemma FreshIsPrivate(s: State, at: Buffer)
    requires Inv(s) && at !in s.heap
    ensures Private(s.(heap := s.heap[at := s.heap[s.current]]), at)
  {
    hide After, Replay, JournalCovers, ApplyAll, JournalTight, WriterOk;
  }

  lemma StartKeepsInv(s: State, at: Buffer, delta: seq<Delta>)
    requires Inv(s) && s.writer.Idle? && at !in s.heap
    ensures Inv(Start(s, at, delta))
  {
    var i := FirstFree(s, 0);
    if i < |s.retired| {
      CountedOnce(s, i);
      ClaimKeepsInv(s, i, delta);
    } else {
      hide After, Replay, JournalCovers, ApplyAll, JournalTight, QueuesOk;
      FoldStep(s.base, s.published, delta);
      FreshKeepsInv(s, at, s.heap[s.current]);
      FreshIsPrivate(s, at);
      BuildKeepsInv(s.(heap := s.heap[at := s.heap[s.current]]), at, delta, delta);
    }
  }

  /** The journal after a retired generation, then the new delta, brings its buffer to the next fold. */
  lemma {:induction false} UnwrapCatchesUp(s: State, taken: Retired, delta: seq<Delta>)
    requires QueuesOk(s) && Behind(s, taken)
    ensures ApplyAll(s.heap[taken.snapshot], DeltasFrom(s.journal, taken.generation) + delta)
         == After(s.base, s.published + [delta], |s.published| + 1)
  {
    hide After, ApplyAll, DeltasFrom, Flat;
    JournalSuffix(s.journal, s.published, s.epoch, s.generation, taken.generation);
    CatchUp(s.base, s.published, delta, taken.generation - s.epoch);
  }

  lemma UnwrapKeepsInv(s: State)
    requires Inv(s) && Enabled(s, Unwrap)
    ensures Inv(Next(s, Unwrap))
  {
    var (taken, delta) := (s.writer.taken, s.writer.delta);
    assert Private(s, taken.snapshot) && Behind(s, taken);
    hide After, Replay, JournalCovers, ApplyAll, DeltasFrom, JournalTight, Flat, Private, QueuesOk;
    UnwrapCatchesUp(s, taken, delta);
    BuildKeepsInv(s, taken.snapshot, DeltasFrom(s.journal, taken.generation) + delta, delta);
  }

  lemma ApplyKeepsInv(s: State)
    requires Inv(s) && Enabled(s, ApplyNext)
    ensures Inv(Next(s, ApplyNext))
  {
    hide After, Replay, JournalCovers;
  }

  lemma {:induction false} OldestIsFirst(retired: seq<Retired>)
    requires retired != [] && forall i, j :: 0 <= i < j < |retired| ==> retired[i].generation < retired[j].generation
    ensures Oldest(retired) == retired[0].generation
  {
    if |retired| > 1 { OldestIsFirst(retired[1..]); }
  }

  /** Trimming leaves exactly the generations after the oldest retired one. */
  lemma {:induction false} TrimIsExact(journal: seq<Entry>, published: seq<seq<Delta>>, epoch: nat, generation: nat,
      oldest: nat)
    requires JournalCovers(journal, published, epoch, generation) && generation - |journal| <= oldest <= generation
    ensures JournalCovers(TrimJournal(journal, oldest), published, epoch, generation)
    ensures |TrimJournal(journal, oldest)| == generation - oldest
  {
    if journal != [] && journal[0].generation <= oldest {
      TrimIsExact(journal[1..], published, epoch, generation, oldest);
    }
  }

  lemma JournalGrows(journal: seq<Entry>, published: seq<seq<Delta>>, epoch: nat, generation: nat, delta: seq<Delta>)
    requires JournalCovers(journal, published, epoch, generation)
    ensures JournalCovers(journal + [Entry(generation + 1, delta)], published + [delta], epoch, generation + 1)
  {
  }

  ghost predicate InOrder(retired: seq<Retired>) {
    forall i, j :: 0 <= i < j < |retired| ==>
      retired[i].generation < retired[j].generation && retired[i].snapshot != retired[j].snapshot
  }

  lemma TrimInOrder(all: seq<Retired>)
    requires InOrder(all) && all != []
    ensures InOrder(Trim(all)) && Trim(all) != [] && |Trim(all)| <= RETIRED_BUFFERS
    ensures forall i :: 0 <= i < |Trim(all)| ==> Trim(all)[i] in all
  {
  }

  lemma AppendInOrder(s: State)
    requires Inv(s)
    ensures InOrder(s.retired + [Retired(s.generation, s.current)])
  {
    assert s.generation == s.epoch + |s.published|;
    assert forall i :: 0 <= i < |s.retired| ==> Behind(s, s.retired[i]) && s.retired[i].snapshot != s.current;
    assert forall i :: 0 <= i < |s.retired| ==> s.retired[i].generation < s.generation;
    hide Behind, After, JournalCovers, Replay, ApplyAll, JournalTight, WriterOk;
  }

  /** The retired queue after a swap: the last few of the old ones and the snapshot just replaced. */
  lemma SwapRetires(s: State)
    requires Inv(s) && s.writer.Building? && s.writer.todo == []
    ensures var t := Swap(s);
      && t.retired != [] && InOrder(t.retired) && |t.retired| <= RETIRED_BUFFERS
      && forall i :: 0 <= i < |t.retired| ==>
           t.retired[i] == Retired(s.generation, s.current)
             || (Behind(s, t.retired[i]) && t.retired[i].snapshot != s.writer.next)
  {
    AppendInOrder(s);
    TrimInOrder(s.retired + [Retired(s.generation, s.current)]);
    hide Behind, After, JournalCovers, TrimJournal, Oldest, Replay, ApplyAll, JournalTight, InOrder, Trim;
  }

  lemma SwapTrims(s: State)
    requires Inv(s) && s.writer.Building? && s.writer.todo == []
    ensures var t := Swap(s);
      && JournalCovers(t.journal, t.published, t.epoch, t.generation)
        && |t.journal| == t.generation - t.retired[0].generation
  {
    SwapRetires(s);
    var t, delta := Swap(s), s.writer.delta;
    OldestIsFirst(t.retired);
    JournalGrows(s.journal, s.published, s.epoch, s.generation, delta);
    hide After, JournalCovers, TrimJournal, Oldest, Replay, ApplyAll, JournalTight, WriterOk, Trim;
    TrimIsExact(s.journal + [Entry(t.generation, delta)], t.published, s.epoch, t.generation, t.retired[0].generation);
  }

  lemma StillBehind(s: State, r: Retired)
    requires Inv(s) && s.writer.Building? && s.writer.todo == []
    requires r in Swap(s).retired && (r == Retired(s.generation, s.current) || Behind(s, r))
    ensures Behind(Swap(s), r)
  {
    hide Flat, Apply, DeltasFrom;
    SwapRetires(s);
    SwapTrims(s);
    AfterAppend(s.base, s.published, s.writer.delta, r.generation - s.epoch);
    assert r.generation >= Swap(s).retired[0].generation;
    hide After, TrimJournal, Oldest, Replay, ApplyAll, JournalTight, WriterOk, Trim;
  }

  /** The queues after a swap. */
  lemma SwapKeepsQueues(s: State)
    requires Inv(s) && s.writer.Building? && s.writer.todo == []
    ensures QueuesOk(Swap(s)) && JournalTight(Swap(s))
  {
    SwapRetires(s);
    SwapTrims(s);
    var t := Swap(s);
    forall i | 0 <= i < |t.retired|
      ensures Behind(t, t.retired[i]) && t.retired[i].snapshot != t.current
    {
      StillBehind(s, t.retired[i]);
      hide After, JournalCovers, TrimJournal, Oldest, Behind, Replay, ApplyAll, Trim;
    }
    hide After, JournalCovers, TrimJournal, Oldest, Behind, Replay, ApplyAll, Trim;
  }

  lemma {:induction false} FoldStep(base: Graph, published: seq<seq<Delta>>, delta: seq<Delta>)
    ensures ApplyAll(After(base, published, |published|), delta) == After(base, published + [delta], |published| + 1)
  {
    CatchUp(base, published, delta, |published|);
    assert published[|published|..] == [];
    assert Flat(published[|published|..]) + delta == delta;
    hide After, ApplyAll;
  }

  lemma {:induction false} LogStep(log: seq<Event>, delta: seq<Delta>)
    ensures Replay(log + [Published(delta)]) == ApplyAll(Replay(log), delta)
  {
    assert (log + [Published(delta)])[..|log|] == log;
    hide ApplyAll;
  }

  lemma PublishKeepsInv(s: State)
    requires Inv(s) && Enabled(s, Publish)
    ensures Inv(Next(s, Publish))
  {
    assert ApplyAll(s.heap[s.writer.next], []) == s.heap[s.writer.next];
    hide After, JournalCovers, TrimJournal, Trim, Oldest, QueuesOk, JournalTight, Replay, ApplyAll;
    SwapKeepsQueues(s);
    FoldStep(s.base, s.published, s.writer.delta);
    LogStep(s.log, s.writer.delta);
  }

  /** Every step keeps the invariant. */
  lemma NextKeepsInv(s: State, step: Step)
    requires Inv(s) && Enabled(s, step)
    ensures Inv(Next(s, step))
  {
    hide Inv, Start, Swap, DeltasFrom;
    match step
    case Store(b) => StoreKeepsInv(s, b);
    case Begin(b, delta) => StartKeepsInv(s, b, delta);
    case BeginLocal(b, ms, rs, lsn) =>
      if !NothingLocal(s, ms, rs, lsn) { StartKeepsInv(s, b, LocalDelta(ms, rs, lsn)); }
    case Unwrap => UnwrapKeepsInv(s);
    case ApplyNext => ApplyKeepsInv(s);
    case Publish => PublishKeepsInv(s);
    case _ => ReadersKeepInv(s, step);
  }

  lemma {:induction false} RunKeepsInv(s: State, steps: seq<Step>)
    requires Inv(s)
    ensures Inv(Run(s, steps))
    decreases |steps|
  {
    hide Inv, Next, Enabled;
    if steps != [] {
      if Enabled(s, steps[0]) { NextKeepsInv(s, steps[0]); }
      RunKeepsInv(if Enabled(s, steps[0]) then Next(s, steps[0]) else s, steps[1..]);
    }
  }

  // ----- what every run guarantees

  /** The delta the writer is on its way to publish. */
  function Underway(w: Writer): Option<seq<Delta>> {
    match w
    case Idle => None
    case Claimed(_, delta) => Some(delta)
    case Building(_, _, delta) => Some(delta)
  }

  /** What callers asked for, read off the steps a run takes: each store as the graph its caller hands over,
      and each publication as the delta passed to the last beginning before it. */
  ghost function Requested(s: State, steps: seq<Step>, begun: seq<Delta>): seq<Event>
    decreases |steps|
  {
    if steps == [] then []
    else if !Enabled(s, steps[0]) then Requested(s, steps[1..], begun)
    else
      var t := Next(s, steps[0]);
      match steps[0]
      case Store(b) => [Stored(s.heap[b])] + Requested(t, steps[1..], begun)
      case Begin(_, delta) => Requested(t, steps[1..], delta)
      case BeginLocal(_, ms, rs, lsn) =>
        Requested(t, steps[1..], if NothingLocal(s, ms, rs, lsn) then begun else LocalDelta(ms, rs, lsn))
      case Publish => [Published(begun)] + Requested(t, steps[1..], [])
      case _ => Requested(t, steps[1..], begun)
  }

  /** One step adds to the log what was asked for, and remembers what was begun. */
  lemma StepIsRequested(s: State, step: Step, begun: seq<Delta>)
    requires Enabled(s, step) && (s.writer.Idle? || Underway(s.writer) == Some(begun))
    ensures var t := Next(s, step);
      match step
      case Store(b) => t.log == s.log + [Stored(s.heap[b])] && t.writer.Idle?
      case Begin(_, delta) => t.log == s.log && Underway(t.writer) == Some(delta)
      case BeginLocal(_, ms, rs, lsn) =>
        t.log == s.log && (t.writer.Idle?
          || Underway(t.writer) == Some(if NothingLocal(s, ms, rs, lsn) then begun else LocalDelta(ms, rs, lsn)))
      case Publish => t.log == s.log + [Published(begun)] && t.writer.Idle?
      case _ => t.log == s.log && (t.writer.Idle? || Underway(t.writer) == Some(begun))
  {
    hide LocalDelta, DeltasFrom, TrimJournal, Trim, Oldest, Apply;
  }

  /** The log of a run is exactly what was asked for, in order. */
  lemma {:induction false} LogIsRequested(s: State, steps: seq<Step>, begun: seq<Delta>)
    requires s.writer.Idle? || Underway(s.writer) == Some(begun)
    ensures Run(s, steps).log == s.log + Requested(s, steps, begun)
    decreases |steps|
  {
    if steps != [] {
      var step := steps[0];
      if !Enabled(s, step) {
        LogIsRequested(s, steps[1..], begun);
      } else {
        StepIsRequested(s, step, begun);
        var t := Next(s, step);
        hide Next, Enabled, NothingLocal, LocalDelta;
        match step
        case Begin(_, delta) => LogIsRequested(t, steps[1..], delta);
        case BeginLocal(_, ms, rs, lsn) =>
          LogIsRequested(t, steps[1..], if NothingLocal(s, ms, rs, lsn) then begun else LocalDelta(ms, rs, lsn));
        case Publish => LogIsRequested(t, steps[1..], []);
        case _ => LogIsRequested(t, steps[1..], begun);
      }
    }
  }

  /** In every run the published snapshot is the fold of all the deltas callers asked for since the last store,
      every retired buffer is the fold up to its generation, and between publications the journal holds
      exactly the generations after the oldest retired one. */
  lemma {:induction false} PublishedIsTheFold(b: Buffer, g: Graph, steps: seq<Step>)
    ensures var s := Run(New(b, g), steps);
      && s.current in s.heap && s.heap[s.current] == Replay([Stored(g)] + Requested(New(b, g), steps, []))
      && (forall i :: 0 <= i < |s.retired| ==> Behind(s, s.retired[i]))
      && JournalCovers(s.journal, s.published, s.epoch, s.generation) && JournalTight(s)
        && |s.retired| <= RETIRED_BUFFERS
  {
    assert Inv(New(b, g));
    RunKeepsInv(New(b, g), steps);
    LogIsRequested(New(b, g), steps, []);
    hide Run, Requested, After, JournalCovers, Replay;
  }

  /** One step never changes a snapshot a reader holds. */
  lemma HeldIsUnchanged(s: State, step: Step, b: Buffer)
    requires Inv(s) && Enabled(s, step) && b in s.held
    ensures b in Next(s, step).heap && Next(s, step).heap[b] == s.heap[b]
  {
    hide QueuesOk, After, Replay, ApplyAll, JournalTight, DeltasFrom;
  }

  /** `b` stays held at every moment of the run. */
  ghost predicate HeldThroughout(s: State, steps: seq<Step>, b: Buffer)
    decreases |steps|
  {
    b in s.held && (steps == [] || HeldThroughout(if Enabled(s, steps[0]) then Next(s, steps[0]) else s, steps[1..], b))
  }

  /** Isolation: as long as a reader keeps its reference, what it sees never changes. */
  lemma {:induction false} ReadersAreIsolated(s: State, steps: seq<Step>, b: Buffer)
    requires Inv(s) && HeldThroughout(s, steps, b)
    ensures b in s.heap && b in Run(s, steps).heap && Run(s, steps).heap[b] == s.heap[b]
    decreases |steps|
  {
    if steps != [] {
      hide Next, Enabled, QueuesOk, After, Replay, JournalTight, WriterOk;
      var t := if Enabled(s, steps[0]) then Next(s, steps[0]) else s;
      if Enabled(s, steps[0]) {
        NextKeepsInv(s, steps[0]);
        HeldIsUnchanged(s, steps[0], b);
      }
      ReadersAreIsolated(t, steps[1..], b);
    }
  }

  /** A buffer out of every reader's reach: retired or in the writer's hands, with no reference outside. */
  ghost predicate OutOfReach(s: State, b: Buffer) {
    b !in s.held && (Writing(s, b) || exists i :: 0 <= i < |s.retired| && s.retired[i].snapshot == b)
  }

  /** No step gives a reader a reference to such a buffer, short of publishing it again. So the count the
      writer checked is still one when it unwraps. */
  lemma OutOfReachStays(s: State, step: Step, b: Buffer)
    requires Inv(s) && Enabled(s, step) && OutOfReach(s, b)
    ensures b !in Next(s, step).held
  {
    hide After, Replay, ApplyAll, JournalTight, DeltasFrom, JournalCovers;
    if !Writing(s, b) {
      var i :| 0 <= i < |s.retired| && s.retired[i].snapshot == b;
      assert Behind(s, s.retired[i]);
    }
  }

  /** Taking the claimed buffer apart cannot find it shared. */
  lemma UnwrapFindsItUnique(s: State)
    requires Inv(s) && s.writer.Claimed?
    ensures StrongCount(s, s.writer.taken.snapshot) == 1
  {
    NotCounted(s.retired, s.writer.taken.snapshot);
  }

  lemma {:induction false} NotCounted(retired: seq<Retired>, b: Buffer)
    requires forall i :: 0 <= i < |retired| ==> retired[i].snapshot != b
    ensures CountRetired(retired, b) == 0
  {
    if retired != [] { NotCounted(retired[1..], b); }
  }

  /** Skipping an empty local batch with a stale frontier loses nothing. */
  lemma SkippedLocalIsNoOp(s: State, memories: seq<Memory>, relationships: seq<Relationship>, lsn: nat)
    requires s.current in s.heap && NothingLocal(s, memories, relationships, lsn)
    ensures ApplyAll(s.heap[s.current], LocalDelta(memories, relationships, lsn)) == s.heap[s.current]
  {
    assert LocalDelta(memories, relationships, lsn) == [AdvanceLocalLsn(lsn)];
    assert [AdvanceLocalLsn(lsn)][1..] == [];
  }
}
