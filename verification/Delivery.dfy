/** Sending one batch: read each acknowledgement, retry what is transient, stop on what is fatal. */
module Delivery {
  import opened Common

  datatype Disposition = Success | Retry | Permanent | Fatal

  datatype Rejection = Rejection(draftKey: string, disposition: Disposition)

  /** What one send brings back: an acknowledgement, or a transport status that is transient or not. */
  datatype Reply = Ack(accepted: nat, rejections: seq<Rejection>) | Status(transient: bool)

  datatype Outcome = Outcome(accepted: nat, duplicates: nat, rejected: seq<Rejection>)

  datatype Verdict = Settled | Again | Abort

  datatype Failure = RetriesExhausted(attempts: nat) | FatalReply

  // ----- one acknowledgement

  predicate Names(rows: seq<Rejection>, d: Disposition) {
    exists i :: 0 <= i < |rows| && rows[i].disposition == d
  }

  function Permanents(rows: seq<Rejection>): seq<Rejection> {
    if rows == [] then []
    else
      var n := |rows| - 1;
      Permanents(rows[..n]) + if rows[n].disposition == Permanent then [rows[n]] else []
  }

  /** An acknowledgement settles a batch when none of its rows is fatal or asks for a retry. */
  predicate Settling(reply: Reply) {
    reply.Ack? && forall i :: 0 <= i < |reply.rejections| ==>
      reply.rejections[i].disposition == Success || reply.rejections[i].disposition == Permanent
  }

  /** A transient status asks for another attempt; so does a row, unless some row is fatal. */
  predicate Retryable(reply: Reply) {
    match reply
    case Status(transient) => transient
    case Ack(_, rows) =>
      && (exists i :: 0 <= i < |rows| && rows[i].disposition == Retry)
      && (forall i :: 0 <= i < |rows| ==> rows[i].disposition != Fatal)
  }

  /** A status that is not transient, or a single fatal row, ends the session. */
  predicate Deadly(reply: Reply) {
    match reply
    case Status(transient) => !transient
    case Ack(_, rows) => exists i :: 0 <= i < |rows| && rows[i].disposition == Fatal
  }

  /** A batch-level duplicate among the rows. */
  predicate Duplicate(reply: Reply) {
    reply.Ack? && exists i :: 0 <= i < |reply.rejections| && reply.rejections[i].disposition == Success
  }

  /** The verdict says which of the three a reply is, row by row. */
  lemma VerdictReadsRows(reply: Reply)
    ensures VerdictOf(reply) == Settled <==> Settling(reply)
    ensures VerdictOf(reply) == Again <==> Retryable(reply)
    ensures VerdictOf(reply) == Abort <==> Deadly(reply)
  {
    if reply.Ack? && VerdictOf(reply) == Settled {
      forall i | 0 <= i < |reply.rejections|
        ensures reply.rejections[i].disposition != Fatal && reply.rejections[i].disposition != Retry
      {
        assert !Names(reply.rejections, Fatal) && !Names(reply.rejections, Retry);
      }
    }
  }

  /** What is reported rejected is each permanently rejected row, as often as the reply names it, and no other. */
  lemma {:induction false} PermanentsAreTheRows(rows: seq<Rejection>, row: Rejection)
    ensures multiset(Permanents(rows))[row] == if row.disposition == Permanent then multiset(rows)[row] else 0
  {
    if rows != [] {
      PermanentsAreTheRows(rows[..|rows| - 1], row);
      assert rows == rows[..|rows| - 1] + [rows[|rows| - 1]];
    }
  }

  /** A fatal row outranks a retry, and a retry outranks everything else. */
  function VerdictOf(reply: Reply): Verdict {
    match reply
    case Status(transient) => if transient then Again else Abort
    case Ack(_, rows) => if Names(rows, Fatal) then Abort else if Names(rows, Retry) then Again else Settled
  }

  /** What a reply that does not abort adds to the window's outcome. */
  function Tally(o: Outcome, reply: Reply): Outcome {
    match reply
    case Status(_) => o
    case Ack(accepted, rows) =>
      if rows == [] then o.(accepted := o.accepted + accepted)
      else
        var seen := o.(rejected := o.rejected + Permanents(rows));
        if Names(rows, Retry) || !Names(rows, Success) then seen
        else seen.(duplicates := o.duplicates + 1, accepted := o.accepted + accepted)
  }

  method TriageAck(reply: Reply, o: Outcome) returns (verdict: Verdict, outcome: Outcome)
    requires reply.Ack?
    ensures verdict == VerdictOf(reply)
    ensures verdict == Settled <==> Settling(reply)
    ensures verdict == Again <==> Retryable(reply)
    ensures verdict == Abort <==> Deadly(reply)
    ensures verdict != Abort ==> outcome == Tally(o, reply)
    ensures verdict == Settled ==> Counted(reply, o, outcome)
    ensures verdict == Again ==> outcome.accepted == o.accepted && outcome.duplicates == o.duplicates
  {
    VerdictReadsRows(reply);
    hide Settling, Retryable, Deadly;
    outcome := o;
    if reply.rejections == [] {
      outcome := o.(accepted := o.accepted + reply.accepted);
      return Settled, outcome;
    }
    var rows := reply.rejections;
    var retry, duplicate := false, false;
    for i := 0 to |rows|
      invariant retry <==> Names(rows[..i], Retry)
      invariant duplicate <==> Names(rows[..i], Success)
      invariant !Names(rows[..i], Fatal)
      invariant outcome == o.(rejected := o.rejected + Permanents(rows[..i]))
    {
      NamesStep(rows, i);
      match rows[i].disposition
      case Success => duplicate := true;
      case Retry => retry := true;
      case Permanent => outcome := outcome.(rejected := outcome.rejected + [rows[i]]);
      case Fatal => return Abort, outcome;
    }
    assert rows[..|rows|] == rows;
    if retry { return Again, outcome; }
    if duplicate {
      outcome := outcome.(duplicates := outcome.duplicates + 1, accepted := outcome.accepted + reply.accepted);
    }
    verdict := Settled;
  }

  lemma NamesStep(rows: seq<Rejection>, i: nat)
    requires i < |rows|
    ensures forall d :: Names(rows[..i + 1], d) <==> Names(rows[..i], d) || rows[i].disposition == d
    ensures Names(rows, rows[i].disposition)
    ensures Permanents(rows[..i + 1]) == Permanents(rows[..i]) + if rows[i].disposition == Permanent then [rows[i]]
      else []
  {
    assert rows[..i + 1][..i] == rows[..i];
    forall d ensures Names(rows[..i + 1], d) <==> Names(rows[..i], d) || rows[i].disposition == d {
      if Names(rows[..i], d) {
        var k :| 0 <= k < i && rows[..i][k].disposition == d;
        assert rows[..i + 1][k].disposition == d;
      }
      assert rows[..i + 1][i] == rows[i];
    }
  }

  // ----- one batch

  datatype Sent = Sent(result: Result<Outcome, Failure>, sends: nat)

  /** Sends from attempt `k` on: `server` is whatever the backend answers to each. */
  function Deliver(server: nat -> Reply, k: nat, maxAttempts: nat, o: Outcome): Sent
    decreases maxAttempts - k
  {
    match VerdictOf(server(k))
    case Settled => Sent(Ok(Tally(o, server(k))), k + 1)
    case Abort => Sent(Err(FatalReply), k + 1)
    case Again =>
      if k + 1 < maxAttempts then Deliver(server, k + 1, maxAttempts, Tally(o, server(k)))
      else Sent(Err(RetriesExhausted(k + 1)), k + 1)
  }

  method SendBatch(server: nat -> Reply, maxAttempts: nat, o: Outcome)
      returns (r: Result<Outcome, Failure>, attempt: nat)
    ensures Sent(r, attempt) == Deliver(server, 0, maxAttempts, o)
    ensures Decided(server, maxAttempts, o, Sent(r, attempt))
  {
    DeliveryIsDecided(server, maxAttempts, o);
    hide Decided, Settling, Retryable, Deadly, Counted;
    var outcome := o;
    attempt := 0;
    while true
      invariant Deliver(server, attempt, maxAttempts, outcome) == Deliver(server, 0, maxAttempts, o)
      decreases maxAttempts - attempt
    {
      var reply := server(attempt);
      attempt := attempt + 1;
      if reply.Status? {
        if reply.transient && attempt < maxAttempts { continue; }
        return Err(if reply.transient then RetriesExhausted(attempt) else FatalReply), attempt;
      }
      var verdict, tallied := TriageAck(reply, outcome);
      match verdict
      case Abort => return Err(FatalReply), attempt;
      case Settled => return Ok(tallied), attempt;
      case Again =>
        if attempt >= maxAttempts { return Err(RetriesExhausted(attempt)), attempt; }
        outcome := tallied;
    }
  }

  /** Permanent rows of every acknowledgement read so far. */
  function RejectedBy(server: nat -> Reply, n: nat): seq<Rejection> {
    if n == 0 then []
    else RejectedBy(server, n - 1) + if server(n - 1).Ack? then Permanents(server(n - 1).rejections) else []
  }

  /** The last reply decides: every earlier one asked for a retry, a batch settles exactly when it does,
      and it is sent at most `maxAttempts` times (once when that is 0). Accepted rows and a duplicate are
      counted from the deciding reply alone; rejected rows from every reply. */
  ghost predicate Decided(server: nat -> Reply, maxAttempts: nat, o: Outcome, s: Sent) {
    && 1 <= s.sends <= Max(1, maxAttempts)
    && (forall k :: 0 <= k < s.sends - 1 ==> Retryable(server(k)))
    && (s.result.Ok? <==> Settling(server(s.sends - 1)))
    && (s.result == Err(FatalReply) <==> Deadly(server(s.sends - 1)))
    && (s.result.Err? && s.result.error.RetriesExhausted? ==>
      s.sends == Max(1, maxAttempts) && s.result.error.attempts == s.sends)
    && (s.result.Ok? ==> Counted(server(s.sends - 1), o, s.result.value))
    && (s.result.Ok? ==> s.result.value.rejected == o.rejected + RejectedBy(server, s.sends))
  }

  /** A settling acknowledgement counts its rows when nothing was rejected or the batch is a replay. */
  ghost predicate Counted(reply: Reply, o: Outcome, after: Outcome)
    requires Settling(reply)
  {
    && after.duplicates == o.duplicates + (if Duplicate(reply) then 1 else 0)
    && after.accepted == o.accepted + (if reply.rejections == [] || Duplicate(reply) then reply.accepted else 0)
  }

  lemma TallyCounts(reply: Reply, o: Outcome)
    requires Settling(reply)
    ensures Counted(reply, o, Tally(o, reply))
    ensures Tally(o, reply).rejected == o.rejected + Permanents(reply.rejections)
  {
    assert Names(reply.rejections, Success) <==> Duplicate(reply);
    assert !Names(reply.rejections, Retry);
    assert Permanents([]) == [];
  }

  lemma {:induction false} DeliverFrom(server: nat -> Reply, k: nat, maxAttempts: nat, o: Outcome, now: Outcome)
    requires k < Max(1, maxAttempts) && forall j :: 0 <= j < k ==> Retryable(server(j))
    requires now == o.(rejected := o.rejected + RejectedBy(server, k))
    ensures Decided(server, maxAttempts, o, Deliver(server, k, maxAttempts, now))
    decreases maxAttempts - k
  {
    var reply := server(k);
    assert RejectedBy(server, k + 1) == RejectedBy(server, k) + if reply.Ack? then Permanents(reply.rejections) else [];
    VerdictReadsRows(reply);
    if Settling(reply) { TallyCounts(reply, now); }
    hide Permanents, Names, VerdictOf, Settling, Retryable, Deadly, Tally, Duplicate;
    if Retryable(reply) && k + 1 < maxAttempts {
      AgainTalliesRejections(reply, now);
      DeliverFrom(server, k + 1, maxAttempts, o, Tally(now, reply));
    }
  }

  lemma AgainTalliesRejections(reply: Reply, o: Outcome)
    requires Retryable(reply)
    ensures Tally(o, reply) == o.(rejected := o.rejected + if reply.Ack? then Permanents(reply.rejections) else [])
  {
    VerdictReadsRows(reply);
  }

  lemma {:induction false} DeliveryIsDecided(server: nat -> Reply, maxAttempts: nat, o: Outcome)
    ensures Decided(server, maxAttempts, o, Deliver(server, 0, maxAttempts, o))
  {
    assert o.rejected + RejectedBy(server, 0) == o.rejected;
    DeliverFrom(server, 0, maxAttempts, o, o);
  }

  // ----- all batches of a window

  /** Batches go out in order; the first that does not settle ends the window. */
  function DeliverAll(server: nat -> nat -> Reply, n: nat, maxAttempts: nat): Sent {
    if n == 0 then Sent(Ok(Outcome(0, 0, [])), 0)
    else
      var before := DeliverAll(server, n - 1, maxAttempts);
      if before.result.Err? then before
      else
        var last := Deliver(server(n - 1), 0, maxAttempts, before.result.value);
        Sent(last.result, before.sends + last.sends)
  }

  method SendAll(server: nat -> nat -> Reply, n: nat, maxAttempts: nat)
      returns (r: Result<Outcome, Failure>, sends: nat)
    ensures Sent(r, sends) == DeliverAll(server, n, maxAttempts)
  {
    var outcome := Outcome(0, 0, []);
    sends := 0;
    for i := 0 to n
      invariant Sent(Ok(outcome), sends) == DeliverAll(server, i, maxAttempts)
    {
      var result, attempts := SendBatch(server(i), maxAttempts, outcome);
      sends := sends + attempts;
      if result.Err? {
        StopsThere(server, i + 1, n, maxAttempts);
        return result, sends;
      }
      outcome := result.value;
    }
    r := Ok(outcome);
  }

  lemma {:induction false} StopsThere(server: nat -> nat -> Reply, i: nat, n: nat, maxAttempts: nat)
    requires i <= n && DeliverAll(server, i, maxAttempts).result.Err?
    ensures DeliverAll(server, n, maxAttempts) == DeliverAll(server, i, maxAttempts)
    decreases n - i
  {
    if i < n { StopsThere(server, i, n - 1, maxAttempts); }
  }

  /** Batch `b` settles: some reply within its attempts settles it, and all before that asked for another. */
  ghost predicate BatchSettles(server: nat -> nat -> Reply, b: nat, maxAttempts: nat) {
    exists k :: 0 <= k < Max(1, maxAttempts) && Settling(server(b)(k)) && forall j :: 0 <= j < k ==>
      Retryable(server(b)(j))
  }

  /** Batch `b` fails for good. */
  ghost predicate BatchDies(server: nat -> nat -> Reply, b: nat, maxAttempts: nat) {
    exists k :: 0 <= k < Max(1, maxAttempts) && Deadly(server(b)(k)) && forall j :: 0 <= j < k ==>
      Retryable(server(b)(j))
  }

  lemma OneKind(reply: Reply)
    ensures (Settling(reply) ==> !Retryable(reply) && !Deadly(reply)) && (Retryable(reply) ==> !Deadly(reply))
  {
    VerdictReadsRows(reply);
  }

  lemma {:induction false} DeliverSettlesIff(server: nat -> nat -> Reply, b: nat, maxAttempts: nat, o: Outcome)
    ensures Deliver(server(b), 0, maxAttempts, o).result.Ok? <==> BatchSettles(server, b, maxAttempts)
    ensures Deliver(server(b), 0, maxAttempts, o).result == Err(FatalReply) <==> BatchDies(server, b, maxAttempts)
    ensures Deliver(server(b), 0, maxAttempts, o).sends <= Max(1, maxAttempts)
  {
    DeliveryIsDecided(server(b), maxAttempts, o);
    var s := Deliver(server(b), 0, maxAttempts, o);
    forall k: nat ensures (Settling(server(b)(k)) ==> !Retryable(server(b)(k)) && !Deadly(server(b)(k)))
      && (Retryable(server(b)(k)) ==> !Deadly(server(b)(k)))
    {
      OneKind(server(b)(k));
    }
    hide Deliver, Counted, RejectedBy, Settling, Retryable, Deadly;
    if BatchSettles(server, b, maxAttempts) {
      var k :| 0 <= k < Max(1, maxAttempts) && Settling(server(b)(k)) && forall j :: 0 <= j < k ==>
        Retryable(server(b)(j));
      assert s.sends - 1 == k;
    }
    if BatchDies(server, b, maxAttempts) {
      var k :| 0 <= k < Max(1, maxAttempts) && Deadly(server(b)(k)) && forall j :: 0 <= j < k ==>
        Retryable(server(b)(j));
      assert s.sends - 1 == k;
    }
  }

  /** Some batch dies after all before it settled. */
  ghost predicate WindowDies(server: nat -> nat -> Reply, n: nat, maxAttempts: nat) {
    exists b: nat :: b < n && BatchDies(server, b, maxAttempts) && forall a: nat :: a < b ==>
      BatchSettles(server, a, maxAttempts)
  }

  lemma DiesAtLast(server: nat -> nat -> Reply, n: nat, maxAttempts: nat)
    requires n > 0
    ensures WindowDies(server, n, maxAttempts) <==>
      || WindowDies(server, n - 1, maxAttempts)
      || (BatchDies(server, n - 1, maxAttempts) && forall a: nat :: a < n - 1 ==> BatchSettles(server, a, maxAttempts))
  {
    hide BatchDies, BatchSettles;
    if WindowDies(server, n - 1, maxAttempts) {
      var b: nat :| b < n - 1 && BatchDies(server, b, maxAttempts) && forall a: nat :: a < b ==>
        BatchSettles(server, a, maxAttempts);
      assert b < n;
    }
  }

  /** A window settles exactly when each of its batches does, and dies exactly when a batch dies that all before let
      be sent, in at most `maxAttempts` sends each. */
  lemma {:induction false} WindowSettlesIff(server: nat -> nat -> Reply, n: nat, maxAttempts: nat)
    ensures DeliverAll(server, n, maxAttempts).result.Ok? <==> forall b: nat :: b < n ==>
      BatchSettles(server, b, maxAttempts)
    ensures DeliverAll(server, n, maxAttempts).result == Err(FatalReply) <==> WindowDies(server, n, maxAttempts)
    ensures DeliverAll(server, n, maxAttempts).sends <= n * Max(1, maxAttempts)
  {
    if n > 0 {
      WindowSettlesIff(server, n - 1, maxAttempts);
      DiesAtLast(server, n, maxAttempts);
      var before := DeliverAll(server, n - 1, maxAttempts);
      if before.result.Ok? {
        DeliverSettlesIff(server, n - 1, maxAttempts, before.result.value);
      }
      hide BatchSettles, BatchDies, Deliver, WindowDies;
      assert n * Max(1, maxAttempts) == (n - 1) * Max(1, maxAttempts) + Max(1, maxAttempts);
    }
  }
}
