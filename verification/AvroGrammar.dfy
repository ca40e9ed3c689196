/** Which byte sequences the container reader accepts, and as what: a grammar of the whole file that does not mention
    the reader, and the theorem that the two agree on every input. */
module AvroGrammar {
  import opened Common
  import opened AvroVarint
  import opened AvroContainer

  // ----- words

  /** `w` writes the long `n`, though perhaps not in the shortest way: one to ten bytes, the last of them alone below
      128, whose payload stands for `n` modulo 2^64. */
  ghost predicate Spells(w: seq<Byte>, n: int) {
    && 1 <= |w| <= MAX_LENGTH
    && (forall i :: 0 <= i < |w| - 1 ==> w[i] >= 128) && w[|w| - 1] < 128
    && n == UnZigZag(Payload(w) % TWO_64)
  }

  lemma {:induction false} ContinuationsOf(s: seq<Byte>, k: nat)
    requires k < |s| && s[k] < 128 && forall i :: 0 <= i < k ==> s[i] >= 128
    ensures Continuations(s) == k
  {
    if k > 0 { ContinuationsOf(s[1..], k - 1); }
  }

  lemma {:induction false} ContinuationsStop(s: seq<Byte>)
    ensures var k := Continuations(s); (forall i :: 0 <= i < k ==> s[i] >= 128) && (k < |s| ==> s[k] < 128)
  {
    if s != [] && s[0] >= 128 {
      ContinuationsStop(s[1..]);
      forall i | 0 < i <= Continuations(s[1..]) && i < |s| ensures s[i] == s[1..][i - 1] {}
    }
  }

  lemma LongReads(w: seq<Byte>, n: int, rest: seq<Byte>)
    requires Spells(w, n)
    ensures LongOf(w + rest) == Ok(Parsed(n, rest))
  {
    ContinuationsOf(w + rest, |w| - 1);
    assert (w + rest)[..|w|] == w && (w + rest)[|w|..] == rest;
    hide Payload, Continuations;
  }

  lemma LongIsSpelled(s: seq<Byte>) returns (w: seq<Byte>)
    requires LongOf(s).Ok?
    ensures s == w + LongOf(s).value.rest && Spells(w, LongOf(s).value.value)
  {
    ContinuationsStop(s);
    w := s[..Continuations(s) + 1];
    hide Payload, Continuations;
  }

  /** Its length, then the bytes. */
  ghost predicate BytesSpelled(w: seq<Byte>, b: seq<Byte>) {
    exists a :: Spells(a, |b|) && w == a + b
  }

  lemma BytesRead(w: seq<Byte>, b: seq<Byte>, rest: seq<Byte>)
    requires BytesSpelled(w, b)
    ensures BytesOf(w + rest) == Ok(Parsed(b, rest))
  {
    hide Spells, LongOf;
    var a :| Spells(a, |b|) && w == a + b;
    LongReads(a, |b|, b + rest);
    assert w + rest == a + (b + rest);
    assert (b + rest)[..|b|] == b && (b + rest)[|b|..] == rest;
  }

  lemma BytesAreSpelled(s: seq<Byte>) returns (w: seq<Byte>)
    requires BytesOf(s).Ok?
    ensures s == w + BytesOf(s).value.rest && BytesSpelled(w, BytesOf(s).value.value)
  {
    var a := LongIsSpelled(s);
    hide Spells, LongOf;
    var p := LongOf(s).value;
    w := a + p.rest[..p.value];
    assert BytesOf(s).value.value == p.rest[..p.value];
    assert Spells(a, |p.rest[..p.value]|);
    assert p.rest == p.rest[..p.value] + p.rest[p.value..];
  }

  // ----- the header

  /** The key, then the value, both as bytes; the key is text, and so are the two values that are read as text. */
  ghost predicate PairSpelled(w: seq<Byte>, p: Pair, text: Text) {
    Readable(p, text) && exists a, b :: BytesSpelled(a, p.key) && BytesSpelled(b, p.value) && w == a + b
  }

  lemma PairReads(w: seq<Byte>, p: Pair, text: Text, rest: seq<Byte>)
    requires PairSpelled(w, p, text)
    ensures PairOf(w + rest, text) == Ok(Parsed(p, rest))
  {
    hide BytesSpelled, BytesOf;
    var a, b :| BytesSpelled(a, p.key) && BytesSpelled(b, p.value) && w == a + b;
    assert w + rest == a + (b + rest);
    BytesRead(a, p.key, b + rest);
    BytesRead(b, p.value, rest);
  }

  lemma PairIsSpelled(s: seq<Byte>, text: Text) returns (w: seq<Byte>)
    requires PairOf(s, text).Ok?
    ensures s == w + PairOf(s, text).value.rest && PairSpelled(w, PairOf(s, text).value.value, text)
  {
    hide BytesSpelled, BytesOf;
    var a := BytesAreSpelled(s);
    var b := BytesAreSpelled(BytesOf(s).value.rest);
    w := a + b;
  }

  ghost predicate PairsSpelled(w: seq<Byte>, ps: seq<Pair>, text: Text)
    decreases |ps|
  {
    if ps == [] then w == []
    else exists a, b :: PairSpelled(a, ps[0], text) && PairsSpelled(b, ps[1..], text) && w == a + b
  }

  lemma {:induction false} PairsRead(w: seq<Byte>, ps: seq<Pair>, text: Text, rest: seq<Byte>, h: Header)
    requires PairsSpelled(w, ps, text)
    ensures PairsOf(w + rest, |ps|, text, h) == Ok(Parsed(NotedAll(h, ps), rest))
    decreases |ps|
  {
    hide PairSpelled, PairOf;
    if ps == [] {
      assert w + rest == rest;
    } else {
      var a, b :| PairSpelled(a, ps[0], text) && PairsSpelled(b, ps[1..], text) && w == a + b;
      assert w + rest == a + (b + rest);
      PairReads(a, ps[0], text, b + rest);
      PairsRead(b, ps[1..], text, rest, Noted(h, ps[0]));
    }
  }

  lemma {:induction false} PairsAreSpelled(s: seq<Byte>, n: nat, text: Text, h: Header)
      returns (w: seq<Byte>, ps: seq<Pair>)
    requires PairsOf(s, n, text, h).Ok?
    ensures |ps| == n && PairsSpelled(w, ps, text)
    ensures s == w + PairsOf(s, n, text, h).value.rest && PairsOf(s, n, text, h).value.value == NotedAll(h, ps)
    decreases n
  {
    hide PairSpelled, PairOf;
    if n == 0 {
      w, ps := [], [];
    } else {
      var a := PairIsSpelled(s, text);
      var p := PairOf(s, text).value;
      var b, rest := PairsAreSpelled(p.rest, n - 1, text, Noted(h, p.value));
      w, ps := a + b, [p.value] + rest;
      assert ps[1..] == rest;
      assert w + PairsOf(s, n, text, h).value.rest == a + (b + PairsOf(s, n, text, h).value.rest);
    }
  }

  /** One header block: how many pairs, written negative if a size stands behind it that nobody looks at, and the pairs.
      */
  ghost predicate MetaSpelled(w: seq<Byte>, ps: seq<Pair>, text: Text) {
    && ps != []
    && exists a, c, body :: PairsSpelled(body, ps, text) && w == a + c + body && CountSpelled(a, c, |ps|)
  }

  ghost predicate CountSpelled(a: seq<Byte>, c: seq<Byte>, n: nat) {
    (Spells(a, n) && c == []) || (Spells(a, 0 - n) && exists size :: Spells(c, size))
  }

  /** Header blocks, and a zero count behind the last. */
  ghost predicate HeaderSpelled(w: seq<Byte>, ms: seq<seq<Pair>>, text: Text)
    decreases |ms|
  {
    if ms == [] then Spells(w, 0)
    else exists a, b :: MetaSpelled(a, ms[0], text) && HeaderSpelled(b, ms[1..], text) && w == a + b
  }

  lemma {:induction false} MetaReads(w: seq<Byte>, ps: seq<Pair>, text: Text, rest: seq<Byte>, h: Header)
    requires MetaSpelled(w, ps, text)
    ensures MetaOf(w + rest, text, h) == MetaOf(rest, text, NotedAll(h, ps))
  {
    hide PairsSpelled, Spells, LongOf, PairsOf, NotedAll;
    var a, c, body :| PairsSpelled(body, ps, text) && w == a + c + body && CountSpelled(a, c, |ps|);
    PairsRead(body, ps, text, rest, h);
    assert w + rest == a + (c + (body + rest));
    if Spells(a, |ps|) && c == [] {
      assert c + (body + rest) == body + rest;
      LongReads(a, |ps|, body + rest);
    } else {
      var size :| Spells(c, size);
      LongReads(a, -|ps|, c + (body + rest));
      LongReads(c, size, body + rest);
    }
  }

  lemma {:induction false} HeaderReads(w: seq<Byte>, ms: seq<seq<Pair>>, text: Text, rest: seq<Byte>, h: Header)
    requires HeaderSpelled(w, ms, text)
    ensures MetaOf(w + rest, text, h) == Ok(Parsed(NotedAll(h, Joined(ms)), rest))
    decreases |ms|
  {
    hide MetaSpelled, Spells, LongOf, PairsOf;
    if ms == [] {
      LongReads(w, 0, rest);
    } else {
      var a, b :| MetaSpelled(a, ms[0], text) && HeaderSpelled(b, ms[1..], text) && w == a + b;
      assert w + rest == a + (b + rest);
      MetaReads(a, ms[0], text, b + rest, h);
      HeaderReads(b, ms[1..], text, rest, NotedAll(h, ms[0]));
      NotedConcat(h, ms[0], Joined(ms[1..]));
    }
  }

  /** The pairs of all header blocks, in order. */
  function Joined(ms: seq<seq<Pair>>): seq<Pair> {
    if ms == [] then [] else ms[0] + Joined(ms[1..])
  }

  lemma MetaIsSpelled(s: seq<Byte>, text: Text, h: Header)
      returns (w: seq<Byte>, ps: seq<Pair>, rest: seq<Byte>)
    requires MetaOf(s, text, h).Ok? && LongOf(s).value.value != 0
    ensures MetaSpelled(w, ps, text) && s == w + rest && |rest| < |s|
    ensures MetaOf(s, text, h) == MetaOf(rest, text, NotedAll(h, ps))
  {
    hide PairsSpelled, Spells, LongOf, PairsOf, NotedAll;
    var a := LongIsSpelled(s);
    var count := LongOf(s).value;
    var c: seq<Byte>, start := [], count;
    if count.value < 0 {
      c := LongIsSpelled(count.rest);
      start := LongOf(count.rest).value;
    }
    assert count.rest == c + start.rest;
    var n: nat := if count.value < 0 then -count.value else count.value;
    var body;
    body, ps := PairsAreSpelled(start.rest, n, text, h);
    rest := PairsOf(start.rest, n, text, h).value.rest;
    w := a + c + body;
    assert CountSpelled(a, c, |ps|);
    assert s == a + (c + (body + rest));
  }

  lemma {:induction false} HeaderIsSpelled(s: seq<Byte>, text: Text, h: Header)
      returns (w: seq<Byte>, ms: seq<seq<Pair>>)
    requires MetaOf(s, text, h).Ok?
    ensures HeaderSpelled(w, ms, text) && s == w + MetaOf(s, text, h).value.rest
    ensures MetaOf(s, text, h).value.value == NotedAll(h, Joined(ms))
    decreases |s|
  {
    hide MetaSpelled, LongOf, MetaOf, NotedAll;
    MetaIsLong(s, text, h);
    if LongOf(s).value.value == 0 {
      w := LongIsSpelled(s);
      ms := [];
      NotedNone(h);
    } else {
      var first, ps, rest := MetaIsSpelled(s, text, h);
      var b, more := HeaderIsSpelled(rest, text, NotedAll(h, ps));
      w, ms := first + b, [ps] + more;
      NotedConcat(h, ps, Joined(more));
      HeaderMore(first, ps, b, more, text);
    }
  }

  lemma {:induction false} HeaderMore(a: seq<Byte>, ps: seq<Pair>, b: seq<Byte>, ms: seq<seq<Pair>>, text: Text)
    requires MetaSpelled(a, ps, text) && HeaderSpelled(b, ms, text)
    ensures HeaderSpelled(a + b, [ps] + ms, text) && Joined([ps] + ms) == ps + Joined(ms)
  {
    hide MetaSpelled;
    assert ([ps] + ms)[1..] == ms;
  }

  lemma {:induction false} MetaIsLong(s: seq<Byte>, text: Text, h: Header)
    requires MetaOf(s, text, h).Ok?
    ensures LongOf(s).Ok? && (LongOf(s).value.value == 0 ==> MetaOf(s, text, h) == Ok(Parsed(h, LongOf(s).value.rest)))
  {
  }

  lemma {:induction false} NotedNone(h: Header)
    ensures NotedAll(h, []) == h
  {
  }

  // ----- the blocks

  /** How many records, how many bytes, the bytes, and the sync marker. */
  ghost predicate BlockSpelled(w: seq<Byte>, b: Block, sync: seq<Byte>) {
    b.count > 0 && exists a, c :: Spells(a, b.count) && Spells(c, |b.data|) && w == a + c + b.data + sync
  }

  ghost predicate BlocksSpelled(w: seq<Byte>, bs: seq<Block>, sync: seq<Byte>)
    decreases |bs|
  {
    if bs == [] then w == []
    else exists a, c :: BlockSpelled(a, bs[0], sync) && BlocksSpelled(c, bs[1..], sync) && w == a + c
  }

  lemma BlockReads(w: seq<Byte>, b: Block, sync: seq<Byte>, rest: seq<Byte>)
    requires BlockSpelled(w, b, sync) && |sync| == SYNC_LENGTH
    ensures w != [] && BlockOf(w + rest, sync) == Ok(Parsed(b, rest))
  {
    hide LongOf, Payload;
    var a, c :| Spells(a, b.count) && Spells(c, |b.data|) && w == a + c + b.data + sync;
    var (tail, after) := (b.data + (sync + rest), sync + rest);
    assert w + rest == a + (c + tail);
    LongReads(a, b.count, c + tail);
    LongReads(c, |b.data|, tail);
    assert tail[..|b.data|] == b.data && tail[|b.data|..] == after;
    assert after[..SYNC_LENGTH] == sync && after[SYNC_LENGTH..] == rest;
  }

  lemma BlockIsSpelled(s: seq<Byte>, sync: seq<Byte>) returns (w: seq<Byte>)
    requires BlockOf(s, sync).Ok?
    ensures s == w + BlockOf(s, sync).value.rest && BlockSpelled(w, BlockOf(s, sync).value.value, sync)
  {
    hide LongOf, Spells;
    var a := LongIsSpelled(s);
    var count := LongOf(s).value;
    var c := LongIsSpelled(count.rest);
    var size := LongOf(count.rest).value;
    var (data, after) := (size.rest[..size.value], size.rest[size.value..]);
    w := a + c + data + sync;
    assert size.rest == data + (sync + after[SYNC_LENGTH..]);
    assert s == a + (c + (data + (sync + after[SYNC_LENGTH..])));
    assert Spells(c, |data|);
  }

  lemma {:induction false} BlocksRead(w: seq<Byte>, bs: seq<Block>, sync: seq<Byte>)
    requires BlocksSpelled(w, bs, sync) && |sync| == SYNC_LENGTH
    ensures BlocksOf(w, sync) == Ok(bs)
    decreases |bs|
  {
    hide BlockSpelled, BlockOf;
    if bs != [] {
      var a, c :| BlockSpelled(a, bs[0], sync) && BlocksSpelled(c, bs[1..], sync) && w == a + c;
      BlockReads(a, bs[0], sync, c);
      BlocksRead(c, bs[1..], sync);
      assert bs == [bs[0]] + bs[1..];
    }
  }

  lemma {:induction false} BlocksAreSpelled(s: seq<Byte>, sync: seq<Byte>)
    requires BlocksOf(s, sync).Ok?
    ensures BlocksSpelled(s, BlocksOf(s, sync).value, sync)
    decreases |s|
  {
    hide BlockSpelled, BlockOf;
    if s != [] {
      var a := BlockIsSpelled(s, sync);
      var b := BlockOf(s, sync).value;
      BlocksAreSpelled(b.rest, sync);
      var bs := BlocksOf(b.rest, sync).value;
      assert BlocksOf(s, sync).value == [b.value] + bs && ([b.value] + bs)[1..] == bs;
    }
  }

  // ----- the file

  /** The schema is the value of the last pair named so, and is a schema; the codec is the value of the last pair named
      so, or no compression where there is none, and is one of the two known. */
  ghost predicate HeaderSays(ps: seq<Pair>, f: File, text: Text) {
    && LastValue(ps, SCHEMA_KEY, f.schema) && text.json(f.schema)
    && (if exists i :: 0 <= i < |ps| && ps[i].key == CODEC_KEY then LastValue(ps, CODEC_KEY, f.codec)
        else f.codec == NULL_CODEC)
    && (f.codec == NULL_CODEC || f.codec == DEFLATE_CODEC)
  }

  /** The magic bytes, the header, the sync marker, and blocks to the end. */
  ghost predicate FileSpelled(s: seq<Byte>, ms: seq<seq<Pair>>, f: File, text: Text) {
    && |f.sync| == SYNC_LENGTH && HeaderSays(Joined(ms), f, text)
    && exists head, data :: HeaderSpelled(head, ms, text) && BlocksSpelled(data, f.blocks, f.sync)
         && s == MAGIC + head + f.sync + data
  }

  lemma LastIsOne(ps: seq<Pair>, key: seq<Byte>, v: seq<Byte>, w: seq<Byte>)
    requires LastValue(ps, key, v) && LastValue(ps, key, w)
    ensures v == w
  {
  }

  lemma {:induction false} HeaderSaysIff(ps: seq<Pair>, f: File, text: Text)
    ensures var h := NotedAll(Header(None, NULL_CODEC), ps);
      HeaderSays(ps, f, text) <==>
        && h.schema == Some(f.schema) && h.codec == f.codec && text.json(f.schema)
        && (f.codec == NULL_CODEC || f.codec == DEFLATE_CODEC)
  {
    HeaderIsLastPairs(ps);
    hide LastValue, NotedAll;
    var h := NotedAll(Header(None, NULL_CODEC), ps);
    if LastValue(ps, CODEC_KEY, h.codec) && LastValue(ps, CODEC_KEY, f.codec) {
      LastIsOne(ps, CODEC_KEY, h.codec, f.codec);
    }
  }

  /** The reader accepts a file, as this one, exactly when the grammar says so. */
  lemma AcceptsExactly(s: seq<Byte>, text: Text, f: File)
    ensures FileOf(s, text) == Ok(f) <==> exists ms :: FileSpelled(s, ms, f, text)
  {
    if FileOf(s, text) == Ok(f) { AcceptedIsSpelled(s, text, f); }
    forall ms | FileSpelled(s, ms, f, text) ensures FileOf(s, text) == Ok(f) { SpelledIsAccepted(s, ms, text, f); }
  }

  lemma SpelledIsAccepted(s: seq<Byte>, ms: seq<seq<Pair>>, text: Text, f: File)
    requires FileSpelled(s, ms, f, text)
    ensures FileOf(s, text) == Ok(f)
  {
    hide HeaderSpelled, BlocksSpelled, MetaOf, BlocksOf, HeaderSays, NotedAll, Joined;
    var head, data :| HeaderSpelled(head, ms, text) && BlocksSpelled(data, f.blocks, f.sync)
      && s == MAGIC + head + f.sync + data;
    assert s == MAGIC + (head + (f.sync + data));
    assert s[..|MAGIC|] == MAGIC && s[|MAGIC|..] == head + (f.sync + data);
    HeaderReads(head, ms, text, f.sync + data, Header(None, NULL_CODEC));
    assert (f.sync + data)[..SYNC_LENGTH] == f.sync && (f.sync + data)[SYNC_LENGTH..] == data;
    BlocksRead(data, f.blocks, f.sync);
    HeaderSaysIff(Joined(ms), f, text);
  }

  lemma AcceptedIsSpelled(s: seq<Byte>, text: Text, f: File)
    requires FileOf(s, text) == Ok(f)
    ensures exists ms :: FileSpelled(s, ms, f, text)
  {
    hide HeaderSpelled, BlocksSpelled, MetaOf, BlocksOf, HeaderSays, NotedAll, Joined;
    var head, ms := HeaderIsSpelled(s[|MAGIC|..], text, Header(None, NULL_CODEC));
    var rest := MetaOf(s[|MAGIC|..], text, Header(None, NULL_CODEC)).value.rest;
    BlocksAreSpelled(rest[SYNC_LENGTH..], f.sync);
    HeaderSaysIff(Joined(ms), f, text);
    assert s == MAGIC + head + f.sync + rest[SYNC_LENGTH..];
    assert FileSpelled(s, ms, f, text);
  }
}
