/** Small shared vocabulary: optional values, results, and sums over slot vectors. */
module Common {

  datatype Option<+T> = None | Some(value: T)

  datatype Result<+T, +E> = Ok(value: T) | Err(error: E)

  function Min(a: int, b: int): int { if a <= b then a else b }

  function Max(a: int, b: int): int { if a >= b then a else b }

  ghost predicate Distinct<T>(s: seq<T>) {
    forall i, j :: 0 <= i < j < |s| ==> s[i] != s[j]
  }

  /** Weight of one slot: an empty slot weighs nothing. */
  function SlotWeight<T>(slot: Option<T>, weight: T -> nat): nat {
    if slot.Some? then weight(slot.value) else 0
  }

  /** Total weight of the occupied slots. */
  function Total<T>(slots: seq<Option<T>>, weight: T -> nat): nat {
    if slots == [] then 0
    else Total(slots[..|slots| - 1], weight) + SlotWeight(slots[|slots| - 1], weight)
  }

  lemma {:induction false} TotalAppend<T>(slots: seq<Option<T>>, slot: Option<T>, weight: T -> nat)
    ensures Total(slots + [slot], weight) == Total(slots, weight) + SlotWeight(slot, weight)
  {
    assert (slots + [slot])[..|slots|] == slots;
  }

  /** Replacing one slot moves the total by exactly that slot's weight difference. */
  lemma {:induction false} TotalUpdate<T>(slots: seq<Option<T>>, i: nat, slot: Option<T>, weight: T -> nat)
    requires i < |slots|
    ensures Total(slots[i := slot], weight) + SlotWeight(slots[i], weight)
         == Total(slots, weight) + SlotWeight(slot, weight)
  {
    var n := |slots| - 1;
    if i == n {
      assert slots[i := slot][..n] == slots[..n];
    } else {
      assert slots[i := slot][..n] == slots[..n][i := slot];
      TotalUpdate(slots[..n], i, slot, weight);
    }
  }

  /** Subtraction that stops at zero. */
  function SatSub(a: nat, b: nat): nat { if a >= b then a - b else 0 }

  // ----- concatenation

  function Flat<T>(parts: seq<seq<T>>): seq<T> {
    if parts == [] then [] else Flat(parts[..|parts| - 1]) + parts[|parts| - 1]
  }

  lemma {:induction false} FlatConcat<T>(a: seq<seq<T>>, b: seq<seq<T>>)
    ensures Flat(a + b) == Flat(a) + Flat(b)
  {
    if b == [] {
      assert a + b == a;
    } else {
      assert (a + b)[..|a| + |b| - 1] == a + b[..|b| - 1];
      FlatConcat(a, b[..|b| - 1]);
    }
  }

  lemma FlatOne<T>(a: seq<T>)
    ensures Flat([a]) == a
  {
    assert [a][..0] == [];
    assert [] + a == a;
  }

  lemma {:induction false} FlatFirst<T>(parts: seq<seq<T>>)
    requires parts != []
    ensures Flat(parts) == parts[0] + Flat(parts[1..])
  {
    assert parts == [parts[0]] + parts[1..];
    FlatConcat([parts[0]], parts[1..]);
    FlatOne(parts[0]);
  }

  lemma {:induction false} FlatPrefix<T>(parts: seq<seq<T>>, i: nat)
    requires i <= |parts|
    ensures Flat(parts[..i]) <= Flat(parts)
  {
    if i < |parts| {
      var n := |parts| - 1;
      FlatPrefix(parts[..n], i);
      assert parts[..n][..i] == parts[..i];
    } else {
      assert parts[..i] == parts;
    }
  }

  lemma {:induction false} FlatStep<T>(parts: seq<seq<T>>, i: nat)
    requires i < |parts|
    ensures Flat(parts[..i + 1]) == Flat(parts[..i]) + parts[i]
    ensures Flat(parts[..i + 1]) <= Flat(parts)
  {
    assert parts[..i + 1][..i] == parts[..i];
    FlatPrefix(parts, i + 1);
  }

  /** Where a part's elements sit in the whole. */
  lemma FlatAt<T>(parts: seq<seq<T>>, i: nat, k: nat)
    requires i < |parts| && k < |parts[i]|
    ensures |Flat(parts[..i])| + |parts[i]| == |Flat(parts[..i + 1])| <= |Flat(parts)|
    ensures Flat(parts)[|Flat(parts[..i])| + k] == parts[i][k]
  {
    FlatStep(parts, i);
    assert Flat(parts)[|Flat(parts[..i])| + k] == Flat(parts[..i + 1])[|Flat(parts[..i])| + k];
  }

  lemma {:induction false} FlatMember<T>(parts: seq<seq<T>>, x: T)
    ensures x in Flat(parts) <==> exists i :: 0 <= i < |parts| && x in parts[i]
  {
    if parts != [] {
      var n := |parts| - 1;
      FlatMember(parts[..n], x);
      assert parts == parts[..n] + [parts[n]];
    }
  }

  // ----- dropping an element

  /** Every occurrence of `x` goes. */
  function Without<T(==, !new)>(s: seq<T>, x: T): (r: seq<T>)
    ensures x !in r
    ensures forall y :: y != x ==> multiset(r)[y] == multiset(s)[y]
    ensures forall y :: y in r ==> y in s
  {
    if s == [] then []
    else
      assert s == [s[0]] + s[1..];
      if s[0] == x then Without(s[1..], x) else [s[0]] + Without(s[1..], x)
  }

  lemma {:induction false} WithoutAbsent<T(!new)>(s: seq<T>, x: T)
    requires x !in s
    ensures Without(s, x) == s
  {
    if s != [] { WithoutAbsent(s[1..], x); }
  }
}
