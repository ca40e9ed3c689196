/** Avro's variable-length zig-zag integers, as section "Binary Encoding" of the Apache Avro specification
    lays them out and as the manifest reader reads them. */
module AvroVarint {
  import opened Common

  newtype Byte = b: int | 0 <= b < 256

  const TWO_63: int := 0x8000_0000_0000_0000
  const TWO_64: int := 0x1_0000_0000_0000_0000
  const MAX_LENGTH: nat := 10

  predicate IsLong(n: int) { -TWO_63 <= n < TWO_63 }

  datatype AvroError =
    | VarintTruncated | VarintTooLong | NegativeLength | BytesTruncated | NotUtf8
    | NotAContainer | NoSchema | BadSchema | BadCodec | SyncTruncated | BadBlock | BlockTruncated | SyncMismatch

  /** A value and what follows it. */
  datatype Parsed<+T> = Parsed(value: T, rest: seq<Byte>)

  // ----- the specification

  function ZigZag(n: int): (z: nat)
    requires IsLong(n)
    ensures z < TWO_64
  {
    if n >= 0 then 2 * n else -2 * n - 1
  }

  function UnZigZag(z: nat): (n: int)
    requires z < TWO_64
    ensures IsLong(n)
  {
    if z % 2 == 0 then z / 2 else -(z / 2) - 1
  }

  lemma ZigZagInverts(n: int)
    requires IsLong(n)
    ensures UnZigZag(ZigZag(n)) == n
  {
  }

  /** Seven bits a byte, lowest first; every byte but the last has its top bit set. */
  function PrintVarint(z: nat): (r: seq<Byte>)
    ensures r != []
  {
    if z < 128 then [z as Byte] else [(z % 128 + 128) as Byte] + PrintVarint(z / 128)
  }

  function PrintLong(n: int): seq<Byte>
    requires IsLong(n)
  {
    PrintVarint(ZigZag(n))
  }

  // ----- the reader

  /** How many bytes in a row ask for another. */
  function Continuations(s: seq<Byte>): (n: nat)
    ensures n <= |s|
  {
    if s == [] || s[0] < 128 then 0 else 1 + Continuations(s[1..])
  }

  function Payload(s: seq<Byte>): nat {
    if s == [] then 0 else s[0] as int % 128 + 128 * Payload(s[1..])
  }

  /** The long at the front of `s`: up to ten bytes, taken modulo 2^64. */
  function LongOf(s: seq<Byte>): (r: Result<Parsed<int>, AvroError>)
    ensures r.Ok? ==> IsLong(r.value.value) && |r.value.rest| < |s|
  {
    var n := Continuations(s);
    if n >= MAX_LENGTH then Err(VarintTooLong)
    else if n == |s| then Err(VarintTruncated)
    else Ok(Parsed(UnZigZag(Payload(s[..n + 1]) % TWO_64), s[n + 1..]))
  }

  lemma {:induction false} PrintedVarint(z: nat, rest: seq<Byte>)
    ensures var p := PrintVarint(z);
      Continuations(p + rest) == |p| - 1 && Payload(p) == z
    decreases z
  {
    var p := PrintVarint(z);
    if z >= 128 {
      PrintedVarint(z / 128, rest);
      assert (p + rest)[1..] == PrintVarint(z / 128) + rest;
      assert p[1..] == PrintVarint(z / 128);
    } else {
      assert p[1..] == [];
    }
  }

  /** A varint of k bytes holds at most 7k bits; ten are enough for 64. */
  lemma {:induction false} VarintLength(z: nat, k: nat)
    requires z < Power128(k) && k > 0
    ensures |PrintVarint(z)| <= k
    decreases k
  {
    if z >= 128 {
      VarintLength(z / 128, k - 1);
    }
  }

  function Power128(k: nat): (r: nat)
    ensures r > 0
  {
    if k == 0 then 1 else 128 * Power128(k - 1)
  }

  lemma TenBytesAreEnough()
    ensures Power128(9) == TWO_63 && Power128(10) == 128 * TWO_63
  {
    assert Power128(3) == 0x20_0000;
    assert Power128(6) == 0x400_0000_0000;
  }

  /** Reading what was printed gives the number back and consumes exactly its bytes. */
  lemma LongRoundTrip(n: int, rest: seq<Byte>)
    requires IsLong(n)
    ensures LongOf(PrintLong(n) + rest) == Ok(Parsed(n, rest))
    ensures 1 <= |PrintLong(n)| <= MAX_LENGTH
  {
    var (z, p) := (ZigZag(n), PrintLong(n));
    PrintedVarint(z, rest);
    TenBytesAreEnough();
    hide Power128;
    VarintLength(z, 10);
    ZigZagInverts(n);
    assert (p + rest)[..|p|] == p && (p + rest)[|p|..] == rest;
  }

  // ----- the reading loop

  lemma {:induction false} PayloadAppend(s: seq<Byte>, b: Byte)
    ensures Payload(s + [b]) == Payload(s) + Power128(|s|) * (b as int % 128)
    ensures Payload(s) < Power128(|s|)
  {
    if s == [] {
      assert (s + [b])[1..] == [];
    } else {
      assert (s + [b])[1..] == s[1..] + [b];
      PayloadAppend(s[1..], b);
      assert Power128(|s|) == 128 * Power128(|s| - 1);
      assert 128 * (Power128(|s| - 1) * (b as int % 128)) == Power128(|s|) * (b as int % 128);
    }
  }

  lemma {:induction false} ContinuationsAt(s: seq<Byte>, k: nat)
    requires k <= |s| && forall i :: 0 <= i < k ==> s[i] >= 128
    ensures Continuations(s) == k + Continuations(s[k..])
  {
    if k == 0 {
      assert s[0..] == s;
    } else {
      ContinuationsAt(s[1..], k - 1);
      assert s[1..][k - 1..] == s[k..];
    }
  }

  /** Shifting the next seven bits in, as the 64-bit register does: bits past the top are lost. */
  lemma ShiftIn(value: nat, k: nat, b: Byte)
    requires k < MAX_LENGTH && value < Power128(k)
    ensures value + Power128(k) * (b as int % 128) % TWO_64 == (value + Power128(k) * (b as int % 128)) % TWO_64
    ensures k < 9 ==> value + Power128(k) * (b as int % 128) < Power128(k + 1) <= TWO_63
    ensures k < 9 ==> Power128(k) * (b as int % 128) % TWO_64 == Power128(k) * (b as int % 128)
  {
    TenBytesAreEnough();
    PowerGrows(k, 9);
    var low := b as int % 128;
    if k < 9 {
      PowerGrows(k + 1, 9);
      assert Power128(k) * low <= Power128(k) * 127;
    } else {
      TopByte(value, low);
    }
  }

  lemma TopByte(value: nat, low: nat)
    requires value < TWO_63 && low < 128
    ensures value + TWO_63 * low % TWO_64 == (value + TWO_63 * low) % TWO_64
  {
    var (q, r) := (low / 2, low % 2);
    assert TWO_63 * low == TWO_64 * q + TWO_63 * r;
    assert (TWO_64 * q + TWO_63 * r) % TWO_64 == TWO_63 * r;
    assert (TWO_64 * q + (value + TWO_63 * r)) % TWO_64 == value + TWO_63 * r;
  }

  lemma {:induction false} PowerGrows(a: nat, b: nat)
    requires a <= b
    ensures Power128(a) <= Power128(b)
    decreases b - a
  {
    if a < b { PowerGrows(a, b - 1); }
  }

  lemma NextByte(s: seq<Byte>, k: nat, value: nat)
    requires k < |s| && k < MAX_LENGTH && value == Payload(s[..k]) < Power128(k)
    ensures value + Power128(k) * (s[k] as int % 128) % TWO_64 == Payload(s[..k + 1]) % TWO_64
    ensures k < 9 ==> value + Power128(k) * (s[k] as int % 128) % TWO_64 == Payload(s[..k + 1]) < Power128(k + 1)
  {
    hide Payload, Power128;
    assert s[..k + 1] == s[..k] + [s[k]];
    PayloadAppend(s[..k], s[k]);
    ShiftIn(value, k, s[k]);
    var shifted := Power128(k) * (s[k] as int % 128);
    assert Payload(s[..k + 1]) == value + shifted;
  }

  /** All of the first k bytes ask for another. */
  ghost predicate Continues(s: seq<Byte>, k: nat) {
    k <= |s| && forall i :: 0 <= i < k ==> s[i] >= 128
  }

  lemma LongEnds(s: seq<Byte>, k: nat)
    requires Continues(s, k) && k <= MAX_LENGTH
    ensures k == MAX_LENGTH ==> LongOf(s) == Err(VarintTooLong)
    ensures k < MAX_LENGTH && k == |s| ==> LongOf(s) == Err(VarintTruncated)
    ensures k < MAX_LENGTH && k < |s| && s[k] < 128 ==>
      LongOf(s) == Ok(Parsed(UnZigZag(Payload(s[..k + 1]) % TWO_64), s[k + 1..]))
  {
    ContinuationsAt(s, k);
    hide Payload;
  }

  method ReadLong(bytes: seq<Byte>, from: nat) returns (r: Result<int, AvroError>, at: nat)
    requires from <= |bytes|
    ensures from <= at <= |bytes|
    ensures match LongOf(bytes[from..])
      case Ok(p) => r == Ok(p.value) && bytes[at..] == p.rest
      case Err(e) => r == Err(e)
  {
    hide LongOf, Payload, Power128;
    var value: nat := 0;
    var k: nat := 0;
    at := from;
    ghost var s := bytes[from..];
    PayloadOfNone();
    assert s[..0] == [];
    while true
      invariant k < MAX_LENGTH && at == from + k <= |bytes|
      invariant Continues(s, k)
      invariant value == Payload(s[..k]) < Power128(k)
      decreases MAX_LENGTH - k
    {
      LongEnds(s, k);
      if at >= |bytes| {
        return Err(VarintTruncated), at;
      }
      var byte := bytes[at];
      assert byte == s[k];
      at := at + 1;
      NextByte(s, k, value);
      value := value + Power128(k) * (byte as int % 128) % TWO_64;
      if byte < 128 {
        assert bytes[at..] == s[k + 1..];
        r := Ok(UnZigZag(value));
        return;
      }
      k := k + 1;
      LongEnds(s, k);
      if k >= MAX_LENGTH {
        return Err(VarintTooLong), at;
      }
    }
  }

  lemma PayloadOfNone()
    ensures Payload([]) == 0 < Power128(0)
  {
  }
}
