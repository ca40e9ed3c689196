/** The packed search arena: search keys laid end to end, each closed by a newline, with replaced
    keys overwritten by spaces (newline included) so that later offsets never move. */
module Arena {
  import opened Common

  const NL: char := '\n'
  const BLANK: char := ' '

  function SlotEnd(text: string, offsets: seq<nat>, i: nat): nat {
    if i + 1 < |offsets| then offsets[i + 1] else |text|
  }

  /** Slots tile the text: the first starts at 0, each ends where the next begins, none is empty. */
  ghost predicate Tiled(text: string, offsets: seq<nat>) {
    && (offsets == [] ==> text == "")
    && (offsets != [] ==> offsets[0] == 0)
    && (forall i {:trigger SlotEnd(text, offsets, i)} ::
          0 <= i < |offsets| ==> offsets[i] < SlotEnd(text, offsets, i) <= |text|)
  }

  /** What one slot shows: a live slot shows its key and a newline, a dead slot shows spaces. */
  ghost predicate Shows(text: string, from: nat, to: nat, key: Option<string>)
    requires from <= to <= |text|
  {
    match key
    case Some(k) =>
      && to == from + |k| + 1
      && text[to - 1] == NL
      && forall p :: from <= p < to - 1 ==> text[p] == k[p - from]
    case None =>
      forall p :: from <= p < to ==> text[p] == BLANK
  }

  /** The arena represents `keys`, slot by slot. */
  ghost predicate Represents(text: string, offsets: seq<nat>, keys: seq<Option<string>>) {
    && Tiled(text, offsets)
    && |keys| == |offsets|
    && forall i {:trigger SlotEnd(text, offsets, i)} :: 0 <= i < |offsets| ==>
         Shows(text, offsets[i], SlotEnd(text, offsets, i), keys[i])
  }

  /** `q` occurs in `text` starting at `p`. */
  ghost predicate OccursAt(text: string, q: string, p: int) {
    0 <= p && p + |q| <= |text| && forall k :: 0 <= k < |q| ==> text[p + k] == q[k]
  }

  ghost predicate Contains(text: string, q: string) {
    exists p: int :: OccursAt(text, q, p)
  }

  lemma OffsetsIncrease(text: string, offsets: seq<nat>, i: nat, j: nat)
    requires Tiled(text, offsets)
    requires i < j < |offsets|
    ensures SlotEnd(text, offsets, i) <= offsets[j]
    decreases j - i
  {
    if i + 1 < j {
      OffsetsIncrease(text, offsets, i + 1, j);
    }
  }

  /** A slot that the text keeps unchanged still shows the same. */
  lemma SameSlot(text: string, text': string, from: nat, to: nat, key: Option<string>)
    requires from < to <= |text| && to <= |text'|
    requires Shows(text, from, to, key)
    requires forall p :: from <= p < to ==> text'[p] == text[p]
    ensures Shows(text', from, to, key)
  {
  }

  /** Appending a key opens one new live slot and leaves the others alone. */
  lemma AppendKey(text: string, offsets: seq<nat>, keys: seq<Option<string>>, key: string)
    requires Represents(text, offsets, keys)
    ensures Represents(text + key + [NL], offsets + [|text|], keys + [Some(key)])
  {
    var t, o := text + key + [NL], offsets + [|text|];
    assert forall p :: 0 <= p < |text| ==> t[p] == text[p];
    assert Shows(t, |text|, |t|, Some(key));
    forall i | 0 <= i < |offsets|
      ensures SlotEnd(t, o, i) == SlotEnd(text, offsets, i)
      ensures Shows(t, o[i], SlotEnd(t, o, i), keys[i])
    {
      SameSlot(text, t, offsets[i], SlotEnd(text, offsets, i), keys[i]);
    }
  }

  function Spaces(n: nat): (s: string)
    ensures |s| == n && forall i :: 0 <= i < n ==> s[i] == BLANK
  {
    seq(n, _ => BLANK)
  }

  /** Equal-length overwrite of a range with spaces. */
  function BlankRange(text: string, from: nat, to: nat): (r: string)
    requires from <= to <= |text|
    ensures |r| == |text|
    ensures forall p :: 0 <= p < |text| ==> r[p] == if from <= p < to then BLANK else text[p]
  {
    text[..from] + Spaces(to - from) + text[to..]
  }

  /** Blanking a whole slot kills that slot and no other. */
  lemma BlankSlot(text: string, offsets: seq<nat>, keys: seq<Option<string>>, slot: nat)
    requires Represents(text, offsets, keys)
    requires slot < |offsets|
    ensures Represents(BlankRange(text, offsets[slot], SlotEnd(text, offsets, slot)), offsets, keys[slot := None])
  {
    var t := BlankRange(text, offsets[slot], SlotEnd(text, offsets, slot));
    forall i | 0 <= i < |offsets|
      ensures SlotEnd(t, offsets, i) == SlotEnd(text, offsets, i)
      ensures Shows(t, offsets[i], SlotEnd(t, offsets, i), keys[slot := None][i])
    {
      if i < slot {
        OffsetsIncrease(text, offsets, i, slot);
        SameSlot(text, t, offsets[i], SlotEnd(text, offsets, i), keys[i]);
      } else if slot < i {
        OffsetsIncrease(text, offsets, slot, i);
        SameSlot(text, t, offsets[i], SlotEnd(text, offsets, i), keys[i]);
      }
    }
  }

  /** The queries the scan is exact for: not empty, no newline, no leading space. */
  ghost predicate Clean(q: string) {
    q != "" && q[0] != BLANK && NL !in q
  }

  lemma NoNewlineInside(text: string, q: string, p: int)
    requires OccursAt(text, q, p) && NL !in q
    ensures forall j :: p <= j < p + |q| ==> text[j] != NL
  {
    forall j | p <= j < p + |q|
      ensures text[j] != NL
    {
      assert text[p + (j - p)] == q[j - p];
    }
  }

  /** A clean occurrence that starts inside slot i lies inside that slot's live key. */
  lemma OccurrenceIsInKey(text: string, offsets: seq<nat>, keys: seq<Option<string>>, q: string, p: int, i: nat)
    requires Represents(text, offsets, keys) && Clean(q)
    requires i < |offsets| && offsets[i] <= p < SlotEnd(text, offsets, i)
    requires OccursAt(text, q, p)
    ensures keys[i].Some?
    ensures p + |q| < SlotEnd(text, offsets, i)
    ensures OccursAt(keys[i].value, q, p - offsets[i])
  {
    var from, to := offsets[i], SlotEnd(text, offsets, i);
    assert text[p + 0] == q[0];
    assert Shows(text, from, to, keys[i]);
    NoNewlineInside(text, q, p);
  }

  /** Conversely, an occurrence inside a live key is an occurrence in the arena, inside that slot. */
  lemma KeyOccurrenceIsInArena(text: string, offsets: seq<nat>, keys: seq<Option<string>>, q: string, p: int, i: nat)
    requires Represents(text, offsets, keys)
    requires i < |offsets| && keys[i].Some? && OccursAt(keys[i].value, q, p)
    ensures OccursAt(text, q, offsets[i] + p)
    ensures offsets[i] + p < SlotEnd(text, offsets, i)
  {
    var from, to := offsets[i], SlotEnd(text, offsets, i);
    assert Shows(text, from, to, keys[i]);
    forall k | 0 <= k < |q|
      ensures text[from + p + k] == q[k]
    {
      assert keys[i].value[p + k] == q[k];
    }
  }

  /** The blank an empty key left behind, followed by a live key. */
  lemma BlankedArena(q: string)
    requires q != "" && q[0] == BLANK
    ensures Represents([BLANK] + q[1..] + [NL], [0, 1], [None, Some(q[1..])])
    ensures OccursAt([BLANK] + q[1..] + [NL], q, 0)
  {
  }

  /** Two live keys, split where the query has a newline. */
  lemma LinesArena(q: string, k: nat)
    requires k < |q| && q[k] == NL
    ensures Represents(q[..k] + [NL] + q[k + 1..] + [NL], [0, k + 1], [Some(q[..k]), Some(q[k + 1..])])
    ensures OccursAt(q[..k] + [NL] + q[k + 1..] + [NL], q, 0)
  {
  }
}
