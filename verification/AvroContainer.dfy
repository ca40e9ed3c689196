/** Avro object container files, as section "Object Container Files" of the Apache Avro specification
    prints them and as the manifest reader takes them apart, down to raw blocks. */
module AvroContainer {
  import opened Common
  import opened AvroVarint

  const MAGIC: seq<Byte> := [0x4f, 0x62, 0x6a, 0x01]
  const SYNC_LENGTH: nat := 16

  function Ascii(s: string): (r: seq<Byte>)
    requires forall i :: 0 <= i < |s| ==> s[i] < 128 as char
    ensures |r| == |s| && forall i :: 0 <= i < |s| ==> r[i] as int == s[i] as int
  {
    seq(|s|, i requires 0 <= i < |s| => s[i] as int as Byte)
  }

  const SCHEMA_KEY: seq<Byte> := Ascii("avro.schema")
  const CODEC_KEY: seq<Byte> := Ascii("avro.codec")
  const NULL_CODEC: seq<Byte> := Ascii("null")
  const DEFLATE_CODEC: seq<Byte> := Ascii("deflate")

  datatype Pair = Pair(key: seq<Byte>, value: seq<Byte>)

  /** A data block: how many records, and their still-encoded bytes. */
  datatype Block = Block(count: int, data: seq<Byte>)

  /** What foreign decoders accept: text, and a schema document. */
  datatype Text = Text(utf8: seq<Byte> -> bool, json: seq<Byte> -> bool)

  datatype File = File(schema: seq<Byte>, codec: seq<Byte>, sync: seq<Byte>, blocks: seq<Block>)

  // ----- length-prefixed bytes

  function PrintBytes(b: seq<Byte>): seq<Byte>
    requires |b| < TWO_63
  {
    PrintLong(|b|) + b
  }

  function BytesOf(s: seq<Byte>): (r: Result<Parsed<seq<Byte>>, AvroError>)
    ensures r.Ok? ==> |r.value.rest| < |s|
  {
    match LongOf(s)
    case Err(e) => Err(e)
    case Ok(p) =>
      if p.value < 0 then Err(NegativeLength)
      else if p.value > |p.rest| then Err(BytesTruncated)
      else Ok(Parsed(p.rest[..p.value], p.rest[p.value..]))
  }

  lemma BytesRoundTrip(b: seq<Byte>, rest: seq<Byte>)
    requires |b| < TWO_63
    ensures BytesOf(PrintBytes(b) + rest) == Ok(Parsed(b, rest))
  {
    LongRoundTrip(|b|, b + rest);
    assert PrintBytes(b) + rest == PrintLong(|b|) + (b + rest);
    assert (b + rest)[..|b|] == b && (b + rest)[|b|..] == rest;
    hide LongOf, PrintLong;
  }

  // ----- metadata

  /** A header block in either count form: the negative form also states its size in bytes. */
  datatype MetaBlock = MetaBlock(pairs: seq<Pair>, size: Option<int>)

  ghost predicate PrintablePair(p: Pair) { |p.key| < TWO_63 && |p.value| < TWO_63 }

  ghost predicate PrintableMeta(m: MetaBlock) {
    && 0 < |m.pairs| < TWO_63 && (m.size.Some? ==> IsLong(m.size.value))
    && forall i :: 0 <= i < |m.pairs| ==> PrintablePair(m.pairs[i])
  }

  ghost function PrintPairs(ps: seq<Pair>): seq<Byte>
    requires forall i :: 0 <= i < |ps| ==> PrintablePair(ps[i])
  {
    if ps == [] then []
    else
      assert PrintablePair(ps[0]);
      PrintBytes(ps[0].key) + PrintBytes(ps[0].value) + PrintPairs(ps[1..])
  }

  ghost function PrintMeta(m: MetaBlock): seq<Byte>
    requires PrintableMeta(m)
  {
    (if m.size.Some? then PrintLong(-|m.pairs|) + PrintLong(m.size.value) else PrintLong(|m.pairs|))
      + PrintPairs(m.pairs)
  }

  ghost function PrintMetas(ms: seq<MetaBlock>): seq<Byte>
    requires forall i :: 0 <= i < |ms| ==> PrintableMeta(ms[i])
  {
    if ms == [] then PrintLong(0) else PrintMeta(ms[0]) + PrintMetas(ms[1..])
  }

  /** What the header has said so far about schema and codec. */
  datatype Header = Header(schema: Option<seq<Byte>>, codec: seq<Byte>)

  /** A later pair overrides an earlier one; other keys are ignored. */
  function Noted(h: Header, p: Pair): Header {
    if p.key == SCHEMA_KEY then h.(schema := Some(p.value))
    else if p.key == CODEC_KEY then h.(codec := p.value)
    else h
  }

  function NotedAll(h: Header, ps: seq<Pair>): Header
    decreases |ps|
  {
    if ps == [] then h else NotedAll(Noted(h, ps[0]), ps[1..])
  }

  /** `v` is the value of the last pair with this key. */
  ghost predicate LastValue(ps: seq<Pair>, key: seq<Byte>, v: seq<Byte>) {
    exists i :: 0 <= i < |ps| && ps[i] == Pair(key, v) && forall j :: i < j < |ps| ==> ps[j].key != key
  }

  /** The schema is the last pair named so, if there is one, and the codec is the last pair named so, or else no
      compression. */
  lemma {:induction false} HeaderIsLastPairs(ps: seq<Pair>)
    ensures var h := NotedAll(Header(None, NULL_CODEC), ps);
      && (forall v :: h.schema == Some(v) <==> LastValue(ps, SCHEMA_KEY, v))
      && (if exists i :: 0 <= i < |ps| && ps[i].key == CODEC_KEY then LastValue(ps, CODEC_KEY, h.codec)
          else h.codec == NULL_CODEC)
  {
    NotedIsLast(Header(None, NULL_CODEC), ps);
  }

  /** The same behind any header read before. */
  lemma {:induction false} NotedIsLast(h: Header, ps: seq<Pair>)
    ensures var r := NotedAll(h, ps);
      && (if exists i :: 0 <= i < |ps| && ps[i].key == SCHEMA_KEY
          then r.schema.Some? && LastValue(ps, SCHEMA_KEY, r.schema.value) else r.schema == h.schema)
      && (if exists i :: 0 <= i < |ps| && ps[i].key == CODEC_KEY then LastValue(ps, CODEC_KEY, r.codec)
          else r.codec == h.codec)
    decreases |ps|
  {
    if ps != [] {
      NotedIsLast(Noted(h, ps[0]), ps[1..]);
      var r := NotedAll(h, ps);
      KeysApart();
      LastBehind(ps, SCHEMA_KEY);
      LastBehind(ps, CODEC_KEY);
    }
  }

  lemma KeysApart()
    ensures SCHEMA_KEY != CODEC_KEY
  {
    assert SCHEMA_KEY[5] != CODEC_KEY[5];
  }

  lemma LastBehind(ps: seq<Pair>, key: seq<Byte>)
    requires ps != []
    ensures (exists i :: 0 <= i < |ps| && ps[i].key == key)
      <==> ps[0].key == key || exists i :: 0 <= i < |ps[1..]| && ps[1..][i].key == key
    ensures forall v :: LastValue(ps[1..], key, v) ==> LastValue(ps, key, v)
    ensures ps[0].key == key && !(exists i :: 0 <= i < |ps[1..]| && ps[1..][i].key == key)
      ==> LastValue(ps, key, ps[0].value)
  {
    forall i | 0 <= i < |ps[1..]| ensures ps[1..][i] == ps[i + 1] {}
    forall v | LastValue(ps[1..], key, v) ensures LastValue(ps, key, v) {
      var i :| 0 <= i < |ps[1..]| && ps[1..][i] == Pair(key, v) && forall j :: i < j < |ps[1..]| ==>
        ps[1..][j].key != key;
      forall j | i + 1 < j < |ps| ensures ps[j].key != key { assert ps[1..][j - 1].key != key; }
      assert ps[i + 1] == Pair(key, v);
    }
    if ps[0].key == key && !(exists i :: 0 <= i < |ps[1..]| && ps[1..][i].key == key) {
      forall j | 0 < j < |ps| ensures ps[j].key != key { assert ps[1..][j - 1].key != key; }
    }
    if exists i :: 0 <= i < |ps| && ps[i].key == key {
      var i :| 0 <= i < |ps| && ps[i].key == key;
      if i > 0 { assert ps[1..][i - 1].key == key; }
    }
  }

  /** Keys must be text; so must the two values that are read as text. */
  ghost predicate Readable(p: Pair, text: Text) {
    text.utf8(p.key) && (p.key == SCHEMA_KEY || p.key == CODEC_KEY ==> text.utf8(p.value))
  }

  function PairOf(s: seq<Byte>, text: Text): (r: Result<Parsed<Pair>, AvroError>)
    ensures r.Ok? ==> |r.value.rest| < |s|
  {
    match BytesOf(s)
    case Err(e) => Err(e)
    case Ok(key) =>
      if !text.utf8(key.value) then Err(NotUtf8)
      else
        match BytesOf(key.rest)
        case Err(e) => Err(e)
        case Ok(value) =>
          if (key.value == SCHEMA_KEY || key.value == CODEC_KEY) && !text.utf8(value.value) then Err(NotUtf8)
          else Ok(Parsed(Pair(key.value, value.value), value.rest))
  }

  function PairsOf(s: seq<Byte>, n: nat, text: Text, h: Header): (r: Result<Parsed<Header>, AvroError>)
    ensures r.Ok? ==> |r.value.rest| <= |s|
    decreases n
  {
    if n == 0 then Ok(Parsed(h, s))
    else
      match PairOf(s, text)
      case Err(e) => Err(e)
      case Ok(p) => PairsOf(p.rest, n - 1, text, Noted(h, p.value))
  }

  /** Header blocks until a zero count. */
  function MetaOf(s: seq<Byte>, text: Text, h: Header): (r: Result<Parsed<Header>, AvroError>)
    ensures r.Ok? ==> |r.value.rest| <= |s|
    decreases |s|
  {
    match LongOf(s)
    case Err(e) => Err(e)
    case Ok(count) =>
      if count.value == 0 then Ok(Parsed(h, count.rest))
      else
        var sized := if count.value < 0 then LongOf(count.rest) else Ok(count);
        match sized
        case Err(e) => Err(e)
        case Ok(start) =>
          match PairsOf(start.rest, if count.value < 0 then -count.value else count.value, text, h)
          case Err(e) => Err(e)
          case Ok(pairs) => MetaOf(pairs.rest, text, pairs.value)
  }

  // ----- data blocks

  ghost predicate PrintableBlock(b: Block) { 0 < b.count < TWO_63 && |b.data| < TWO_63 }

  ghost function PrintBlocks(bs: seq<Block>, sync: seq<Byte>): seq<Byte>
    requires forall i :: 0 <= i < |bs| ==> PrintableBlock(bs[i])
  {
    if bs == [] then []
    else
      assert PrintableBlock(bs[0]);
      PrintLong(bs[0].count) + PrintLong(|bs[0].data|) + bs[0].data + sync + PrintBlocks(bs[1..], sync)
  }

  function BlockOf(s: seq<Byte>, sync: seq<Byte>): (r: Result<Parsed<Block>, AvroError>)
    ensures r.Ok? ==> |r.value.rest| < |s|
  {
    match LongOf(s)
    case Err(e) => Err(e)
    case Ok(count) =>
      match LongOf(count.rest)
      case Err(e) => Err(e)
      case Ok(size) =>
        if count.value <= 0 || size.value < 0 then Err(BadBlock)
        else if size.value > |size.rest| then Err(BlockTruncated)
        else
          var after := size.rest[size.value..];
          if |after| < SYNC_LENGTH then Err(SyncTruncated)
          else if after[..SYNC_LENGTH] != sync then Err(SyncMismatch)
          else Ok(Parsed(Block(count.value, size.rest[..size.value]), after[SYNC_LENGTH..]))
  }

  /** Blocks to the end of the file. */
  function BlocksOf(s: seq<Byte>, sync: seq<Byte>): Result<seq<Block>, AvroError>
    decreases |s|
  {
    if s == [] then Ok([])
    else
      match BlockOf(s, sync)
      case Err(e) => Err(e)
      case Ok(b) =>
        match BlocksOf(b.rest, sync)
        case Err(e) => Err(e)
        case Ok(bs) => Ok([b.value] + bs)
  }

  function FileOf(s: seq<Byte>, text: Text): Result<File, AvroError> {
    if |s| < |MAGIC| || s[..|MAGIC|] != MAGIC then Err(NotAContainer)
    else
      match MetaOf(s[|MAGIC|..], text, Header(None, NULL_CODEC))
      case Err(e) => Err(e)
      case Ok(meta) =>
        var h := meta.value;
        if h.schema.None? then Err(NoSchema)
        else if !text.json(h.schema.value) then Err(BadSchema)
        else if h.codec != NULL_CODEC && h.codec != DEFLATE_CODEC then Err(BadCodec)
        else if |meta.rest| < SYNC_LENGTH then Err(SyncTruncated)
        else
          var sync := meta.rest[..SYNC_LENGTH];
          match BlocksOf(meta.rest[SYNC_LENGTH..], sync)
          case Err(e) => Err(e)
          case Ok(bs) => Ok(File(h.schema.value, h.codec, sync, bs))
  }

  // ----- reading undoes printing

  lemma PairRoundTrip(p: Pair, rest: seq<Byte>, text: Text)
    requires PrintablePair(p) && Readable(p, text)
    ensures PairOf(PrintBytes(p.key) + PrintBytes(p.value) + rest, text) == Ok(Parsed(p, rest))
  {
    hide BytesOf, PrintBytes;
    BytesRoundTrip(p.key, PrintBytes(p.value) + rest);
    BytesRoundTrip(p.value, rest);
    assert PrintBytes(p.key) + PrintBytes(p.value) + rest == PrintBytes(p.key) + (PrintBytes(p.value) + rest);
  }

  lemma {:induction false} PairsRoundTrip(ps: seq<Pair>, rest: seq<Byte>, text: Text, h: Header)
    requires forall i :: 0 <= i < |ps| ==> PrintablePair(ps[i]) && Readable(ps[i], text)
    ensures PairsOf(PrintPairs(ps) + rest, |ps|, text, h) == Ok(Parsed(NotedAll(h, ps), rest))
    decreases |ps|
  {
    if ps == [] {
      assert PrintPairs(ps) + rest == rest;
    } else {
      var (p, more) := (ps[0], PrintPairs(ps[1..]) + rest);
      assert PrintPairs(ps) + rest == PrintBytes(p.key) + PrintBytes(p.value) + more;
      hide PrintBytes, PairOf, Noted;
      PairRoundTrip(p, more, text);
      PairsRoundTrip(ps[1..], rest, text, Noted(h, p));
    }
  }

  ghost predicate ReadableMeta(m: MetaBlock, text: Text) {
    forall i :: 0 <= i < |m.pairs| ==> Readable(m.pairs[i], text)
  }

  function MetaPairs(ms: seq<MetaBlock>): seq<Pair> {
    if ms == [] then [] else ms[0].pairs + MetaPairs(ms[1..])
  }

  lemma {:induction false} NotedConcat(h: Header, a: seq<Pair>, b: seq<Pair>)
    ensures NotedAll(h, a + b) == NotedAll(NotedAll(h, a), b)
    decreases |a|
  {
    if a == [] {
      assert a + b == b;
    } else {
      assert (a + b)[1..] == a[1..] + b;
      NotedConcat(Noted(h, a[0]), a[1..], b);
    }
  }

  lemma {:induction false} MetaStep(s: seq<Byte>, text: Text, h: Header, count: Parsed<int>, start: Parsed<int>,
      pairs: Parsed<Header>)
    requires LongOf(s) == Ok(count) && count.value != 0
    requires if count.value < 0 then LongOf(count.rest) == Ok(start) else start == count
    requires PairsOf(start.rest, if count.value < 0 then -count.value else count.value, text, h) == Ok(pairs)
    ensures MetaOf(s, text, h) == MetaOf(pairs.rest, text, pairs.value)
  {
    hide LongOf, PairsOf;
  }

  lemma {:induction false} SizedMeta(n: int, size: int, body: seq<Byte>, text: Text, h: Header, after: Parsed<Header>)
    requires 0 < n < TWO_63 && IsLong(size) && PairsOf(body, n, text, h) == Ok(after)
    ensures MetaOf(PrintLong(-n) + (PrintLong(size) + body), text, h) == MetaOf(after.rest, text, after.value)
  {
    hide LongOf, PrintLong, PairsOf, MetaOf;
    LongRoundTrip(-n, PrintLong(size) + body);
    LongRoundTrip(size, body);
    MetaStep(PrintLong(-n) + (PrintLong(size) + body), text, h, Parsed(-n, PrintLong(size) + body),
      Parsed(size, body), after);
  }

  lemma {:induction false} PlainMeta(n: int, body: seq<Byte>, text: Text, h: Header, after: Parsed<Header>)
    requires 0 < n < TWO_63 && PairsOf(body, n, text, h) == Ok(after)
    ensures MetaOf(PrintLong(n) + body, text, h) == MetaOf(after.rest, text, after.value)
  {
    hide LongOf, PrintLong, PairsOf, MetaOf;
    LongRoundTrip(n, body);
    MetaStep(PrintLong(n) + body, text, h, Parsed(n, body), Parsed(n, body), after);
  }

  lemma JoinThree(a: seq<Byte>, b: seq<Byte>, c: seq<Byte>, d: seq<Byte>)
    ensures a + b + c + d == a + (b + (c + d)) && a + c + d == a + (c + d)
  {
  }

  lemma {:induction false} MetaBlockRoundTrip(m: MetaBlock, rest: seq<Byte>, text: Text, h: Header)
    requires PrintableMeta(m) && ReadableMeta(m, text)
    ensures MetaOf(PrintMeta(m) + rest, text, h) == MetaOf(rest, text, NotedAll(h, m.pairs))
  {
    var (n, body, after) := (|m.pairs|, PrintPairs(m.pairs) + rest, Parsed(NotedAll(h, m.pairs), rest));
    PairsRoundTrip(m.pairs, rest, text, h);
    hide PrintLong, PrintPairs, PairsOf, NotedAll, MetaOf;
    if m.size.Some? {
      JoinThree(PrintLong(-n), PrintLong(m.size.value), PrintPairs(m.pairs), rest);
      SizedMeta(n, m.size.value, body, text, h, after);
    } else {
      JoinThree(PrintLong(n), [], PrintPairs(m.pairs), rest);
      PlainMeta(n, body, text, h, after);
    }
  }

  lemma {:induction false} MetasRoundTrip(ms: seq<MetaBlock>, rest: seq<Byte>, text: Text, h: Header)
    requires forall i :: 0 <= i < |ms| ==> PrintableMeta(ms[i]) && ReadableMeta(ms[i], text)
    ensures MetaOf(PrintMetas(ms) + rest, text, h) == Ok(Parsed(NotedAll(h, MetaPairs(ms)), rest))
    decreases |ms|
  {
    if ms == [] {
      LongRoundTrip(0, rest);
    } else {
      var more := PrintMetas(ms[1..]) + rest;
      assert PrintMetas(ms) + rest == PrintMeta(ms[0]) + more;
      hide MetaOf, PrintMeta, NotedAll;
      MetaBlockRoundTrip(ms[0], more, text, h);
      MetasRoundTrip(ms[1..], rest, text, NotedAll(h, ms[0].pairs));
      NotedConcat(h, ms[0].pairs, MetaPairs(ms[1..]));
    }
  }

  lemma BlockRoundTrip(b: Block, sync: seq<Byte>, rest: seq<Byte>)
    requires PrintableBlock(b) && |sync| == SYNC_LENGTH
    ensures BlockOf(PrintLong(b.count) + PrintLong(|b.data|) + b.data + sync + rest, sync) == Ok(Parsed(b, rest))
  {
    var tail := b.data + (sync + rest);
    var s := PrintLong(b.count) + PrintLong(|b.data|) + b.data + sync + rest;
    hide LongOf, PrintLong;
    assert s == PrintLong(b.count) + (PrintLong(|b.data|) + tail);
    LongRoundTrip(b.count, PrintLong(|b.data|) + tail);
    LongRoundTrip(|b.data|, tail);
    assert tail[..|b.data|] == b.data && tail[|b.data|..] == sync + rest;
    assert (sync + rest)[..SYNC_LENGTH] == sync && (sync + rest)[SYNC_LENGTH..] == rest;
  }

  lemma {:induction false} BlocksRoundTrip(bs: seq<Block>, sync: seq<Byte>)
    requires |sync| == SYNC_LENGTH && forall i :: 0 <= i < |bs| ==> PrintableBlock(bs[i])
    ensures BlocksOf(PrintBlocks(bs, sync), sync) == Ok(bs)
    decreases |bs|
  {
    if bs != [] {
      var rest := PrintBlocks(bs[1..], sync);
      BlocksRoundTrip(bs[1..], sync);
      BlockRoundTrip(bs[0], sync, rest);
      hide BlockOf, PrintLong;
      assert PrintBlocks(bs, sync) != [];
      assert [bs[0]] + bs[1..] == bs;
    }
  }

  ghost function PrintFile(ms: seq<MetaBlock>, sync: seq<Byte>, bs: seq<Block>): seq<Byte>
    requires forall i :: 0 <= i < |ms| ==> PrintableMeta(ms[i])
    requires forall i :: 0 <= i < |bs| ==> PrintableBlock(bs[i])
  {
    MAGIC + (PrintMetas(ms) + (sync + PrintBlocks(bs, sync)))
  }

  /** Reading a printed container gives back the header it stated, in either count form, and the same raw
      blocks, with nothing left over; or refuses it for exactly the reason its header earns. */
  lemma {:induction false} FileRoundTrip(ms: seq<MetaBlock>, sync: seq<Byte>, bs: seq<Block>, text: Text)
    requires |sync| == SYNC_LENGTH
    requires forall i :: 0 <= i < |ms| ==> PrintableMeta(ms[i]) && ReadableMeta(ms[i], text)
    requires forall i :: 0 <= i < |bs| ==> PrintableBlock(bs[i])
    ensures var h := NotedAll(Header(None, NULL_CODEC), MetaPairs(ms));
      FileOf(PrintFile(ms, sync, bs), text) ==
        if h.schema.None? then Err(NoSchema)
        else if !text.json(h.schema.value) then Err(BadSchema)
        else if h.codec != NULL_CODEC && h.codec != DEFLATE_CODEC then Err(BadCodec)
        else Ok(File(h.schema.value, h.codec, sync, bs))
  {
    var rest := sync + PrintBlocks(bs, sync);
    var s := PrintFile(ms, sync, bs);
    assert s[..|MAGIC|] == MAGIC && s[|MAGIC|..] == PrintMetas(ms) + rest;
    MetasRoundTrip(ms, rest, text, Header(None, NULL_CODEC));
    BlocksRoundTrip(bs, sync);
    assert rest[..SYNC_LENGTH] == sync && rest[SYNC_LENGTH..] == PrintBlocks(bs, sync);
    hide MetaOf, BlocksOf, PrintMetas, PrintBlocks, NotedAll, MetaPairs;
  }

  // ----- the reading loops

  method ReadBytes(raw: seq<Byte>, from: nat) returns (r: Result<seq<Byte>, AvroError>, at: nat)
    requires from <= |raw|
    ensures from <= at <= |raw|
    ensures match BytesOf(raw[from..])
      case Ok(p) => r == Ok(p.value) && raw[at..] == p.rest
      case Err(e) => r == Err(e)
  {
    hide LongOf;
    var length;
    length, at := ReadLong(raw, from);
    if length.Err? { return Err(length.error), at; }
    if length.value < 0 { return Err(NegativeLength), at; }
    var (start, end) := (at, at + length.value);
    if end > |raw| { return Err(BytesTruncated), at; }
    at := end;
    assert raw[start..][..length.value] == raw[start..end] && raw[start..][length.value..] == raw[end..];
    r := Ok(raw[start..end]);
  }

  method ReadPair(raw: seq<Byte>, from: nat, text: Text) returns (r: Result<Pair, AvroError>, at: nat)
    requires from <= |raw|
    ensures from <= at <= |raw|
    ensures match PairOf(raw[from..], text)
      case Ok(p) => r == Ok(p.value) && raw[at..] == p.rest
      case Err(e) => r == Err(e)
  {
    hide BytesOf;
    var key, value;
    key, at := ReadBytes(raw, from);
    if key.Err? { return Err(key.error), at; }
    if !text.utf8(key.value) { return Err(NotUtf8), at; }
    value, at := ReadBytes(raw, at);
    if value.Err? { return Err(value.error), at; }
    if (key.value == SCHEMA_KEY || key.value == CODEC_KEY) && !text.utf8(value.value) { return Err(NotUtf8), at; }
    r := Ok(Pair(key.value, value.value));
  }

  method ReadPairs(raw: seq<Byte>, from: nat, n: nat, text: Text, h0: Header)
      returns (r: Result<Header, AvroError>, at: nat)
    requires from <= |raw|
    ensures from <= at <= |raw|
    ensures match PairsOf(raw[from..], n, text, h0)
      case Ok(p) => r == Ok(p.value) && raw[at..] == p.rest
      case Err(e) => r == Err(e)
  {
    hide PairOf, Noted;
    at := from;
    var h := h0;
    for i := 0 to n
      invariant from <= at <= |raw|
      invariant PairsOf(raw[from..], n, text, h0) == PairsOf(raw[at..], n - i, text, h)
    {
      var pair;
      pair, at := ReadPair(raw, at, text);
      if pair.Err? { return Err(pair.error), at; }
      h := Noted(h, pair.value);
    }
    r := Ok(h);
  }

  method ReadMeta(raw: seq<Byte>, from: nat, text: Text) returns (r: Result<Header, AvroError>, at: nat)
    requires from <= |raw|
    ensures from <= at <= |raw|
    ensures match MetaOf(raw[from..], text, Header(None, NULL_CODEC))
      case Ok(p) => r == Ok(p.value) && raw[at..] == p.rest
      case Err(e) => r == Err(e)
  {
    hide LongOf, PairsOf;
    at := from;
    var h := Header(None, NULL_CODEC);
    while true
      invariant from <= at <= |raw|
      invariant MetaOf(raw[from..], text, Header(None, NULL_CODEC)) == MetaOf(raw[at..], text, h)
      decreases |raw| - at
    {
      var count, size, header;
      count, at := ReadLong(raw, at);
      if count.Err? { return Err(count.error), at; }
      if count.value == 0 { return Ok(h), at; }
      var pairs: nat := if count.value < 0 then -count.value else count.value;
      if count.value < 0 {
        size, at := ReadLong(raw, at);
        if size.Err? { return Err(size.error), at; }
      }
      header, at := ReadPairs(raw, at, pairs, text, h);
      if header.Err? { return Err(header.error), at; }
      h := header.value;
    }
  }

  method ReadBlock(raw: seq<Byte>, from: nat, sync: seq<Byte>) returns (r: Result<Block, AvroError>, at: nat)
    requires from <= |raw|
    ensures from <= at <= |raw|
    ensures match BlockOf(raw[from..], sync)
      case Ok(p) => r == Ok(p.value) && raw[at..] == p.rest
      case Err(e) => r == Err(e)
  {
    hide LongOf;
    var count, size;
    count, at := ReadLong(raw, from);
    if count.Err? { return Err(count.error), at; }
    size, at := ReadLong(raw, at);
    if size.Err? { return Err(size.error), at; }
    if count.value <= 0 || size.value < 0 { return Err(BadBlock), at; }
    var (start, end) := (at, at + size.value);
    if end > |raw| { return Err(BlockTruncated), at; }
    assert raw[start..][..size.value] == raw[start..end] && raw[start..][size.value..] == raw[end..];
    at := end;
    if at + SYNC_LENGTH > |raw| { return Err(SyncTruncated), at; }
    assert raw[end..][..SYNC_LENGTH] == raw[end..end + SYNC_LENGTH]
      && raw[end..][SYNC_LENGTH..] == raw[end + SYNC_LENGTH..];
    at := at + SYNC_LENGTH;
    if raw[end..at] != sync { return Err(SyncMismatch), at; }
    r := Ok(Block(count.value, raw[start..end]));
  }

  method ReadBlocks(raw: seq<Byte>, from: nat, sync: seq<Byte>) returns (r: Result<seq<Block>, AvroError>)
    requires from <= |raw|
    ensures r == BlocksOf(raw[from..], sync)
  {
    hide BlockOf;
    var at := from;
    var blocks: seq<Block> := [];
    PrefixedNone(blocks, BlocksOf(raw[at..], sync));
    while at < |raw|
      invariant from <= at <= |raw|
      invariant BlocksOf(raw[from..], sync) == Prefixed(blocks, BlocksOf(raw[at..], sync))
      decreases |raw| - at
    {
      var block;
      block, at := ReadBlock(raw, at, sync);
      if block.Err? { return Err(block.error); }
      PrefixedStep(blocks, block.value, BlocksOf(raw[at..], sync));
      blocks := blocks + [block.value];
    }
    assert raw[at..] == [];
    PrefixedNone(blocks, Ok([]));
    r := Ok(blocks);
  }

  ghost function Prefixed(bs: seq<Block>, r: Result<seq<Block>, AvroError>): Result<seq<Block>, AvroError> {
    match r
    case Err(e) => Err(e)
    case Ok(more) => Ok(bs + more)
  }

  lemma PrefixedNone(bs: seq<Block>, r: Result<seq<Block>, AvroError>)
    ensures bs == [] ==> Prefixed(bs, r) == r
    ensures Prefixed(bs, Ok([])) == Ok(bs)
  {
    if r.Ok? { assert [] + r.value == r.value; }
    assert bs + [] == bs;
  }

  lemma PrefixedStep(bs: seq<Block>, b: Block, r: Result<seq<Block>, AvroError>)
    ensures Prefixed(bs + [b], r) == Prefixed(bs, Prefixed([b], r))
  {
    if r.Ok? { assert bs + [b] + r.value == bs + ([b] + r.value); }
  }

  method ReadContainer(raw: seq<Byte>, text: Text) returns (r: Result<File, AvroError>)
    ensures r == FileOf(raw, text)
  {
    hide MetaOf, BlocksOf;
    if |raw| < |MAGIC| || raw[..|MAGIC|] != MAGIC { return Err(NotAContainer); }
    var header, at := ReadMeta(raw, |MAGIC|, text);
    if header.Err? { return Err(header.error); }
    var h := header.value;
    if h.schema.None? { return Err(NoSchema); }
    if !text.json(h.schema.value) { return Err(BadSchema); }
    if h.codec != NULL_CODEC && h.codec != DEFLATE_CODEC { return Err(BadCodec); }
    if |raw| < at + SYNC_LENGTH { return Err(SyncTruncated); }
    var sync := raw[at..at + SYNC_LENGTH];
    assert raw[at..][..SYNC_LENGTH] == sync && raw[at..][SYNC_LENGTH..] == raw[at + SYNC_LENGTH..];
    var blocks := ReadBlocks(raw, at + SYNC_LENGTH, sync);
    if blocks.Err? { return Err(blocks.error); }
    r := Ok(File(h.schema.value, h.codec, sync, blocks.value));
  }
}
