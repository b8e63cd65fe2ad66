/** Images as lists of chunks: finding the gzip streams of a file, compacting runs of normal chunks
    in place, and pairing the chunks of two images.

    The foreign libraries are the functions of a `Codec`; what is assumed of them is `Lawful`. */
module ImageChunks {
  import opened Basics
  import opened RangeSets

  /** Bytes consumed and bytes produced by a raw inflate that reaches the end of the stream. */
  datatype Inflated = Inflated(consumed: nat, output: seq<byte>)

  datatype DeflateParams = DeflateParams(level: int, method_: int, windowBits: int, memLevel: int, strategy: int)

  /** The parameters every chunk is deflated with, but for the level. */
  function Params(level: int): DeflateParams {
    DeflateParams(level, 8, -15, 8, 0)
  }

  datatype Codec = Codec(
    bsdiff: (seq<byte>, seq<byte>) -> Option<seq<byte>>,
    // the pieces handed to the sink, in order
    bspatch: (seq<byte>, seq<byte>) -> Option<seq<seq<byte>>>,
    inflate: seq<byte> -> Option<Inflated>,
    deflate: (seq<byte>, DeflateParams) -> seq<byte>)

  function Concat(pieces: seq<seq<byte>>): seq<byte> {
    if pieces == [] then [] else Concat(pieces[..|pieces| - 1]) + pieces[|pieces| - 1]
  }

  /** A raw deflate stream ends itself and is not empty. */
  ghost predicate LawfulInflate(codec: Codec) {
    forall x, n :: codec.inflate(x).Some? && codec.inflate(x).value.consumed <= n <= |x| ==>
      && 0 < codec.inflate(x).value.consumed
      && codec.inflate(x[..n]) == codec.inflate(x)
  }

  ghost predicate ConsumesInput(codec: Codec) {
    forall x :: codec.inflate(x).Some? ==> codec.inflate(x).value.consumed <= |x|
  }

  /** bspatch inverts bsdiff, ignores what follows the patch, and hands out non-empty pieces. */
  ghost predicate LawfulDiff(codec: Codec) {
    forall src, tgt, rest: seq<byte> :: codec.bsdiff(src, tgt).Some? ==>
      var r := codec.bspatch(src, codec.bsdiff(src, tgt).value + rest);
      r.Some? && Concat(r.value) == tgt && forall i :: 0 <= i < |r.value| ==> r.value[i] != []
  }

  ghost predicate Lawful(codec: Codec) {
    LawfulInflate(codec) && ConsumesInput(codec) && LawfulDiff(codec)
  }

  datatype ChunkType = Normal | Deflate | Raw

  datatype ImageChunk = ImageChunk(kind: ChunkType, start: nat, len: nat, data: seq<byte>, level: nat, name: string)

  function NormalChunk(start: nat, len: nat): ImageChunk {
    ImageChunk(Normal, start, len, [], 6, "")
  }

  function End(c: ImageChunk): nat {
    c.start + c.len
  }

  function RawData(c: ImageChunk, file: seq<byte>): seq<byte>
    requires End(c) <= |file|
  {
    file[c.start..End(c)]
  }

  function DataForPatch(c: ImageChunk, file: seq<byte>): seq<byte>
    requires End(c) <= |file|
  {
    if c.kind.Deflate? then c.data else RawData(c, file)
  }

  function ToNormal(c: ImageChunk): ImageChunk {
    if c.kind.Deflate? then c.(kind := Normal, data := []) else c
  }

  predicate SameChunk(c: ImageChunk, file: seq<byte>, d: ImageChunk, other: seq<byte>)
    requires End(c) <= |file| && End(d) <= |other|
  {
    c.kind == d.kind && c.len == d.len && RawData(c, file) == RawData(d, other)
  }

  /** The chunks cover the bytes from..to without gap or overlap. */
  ghost predicate Tiles(cs: seq<ImageChunk>, from: nat, to: nat) {
    if cs == [] then from == to
    else
      && cs[0].start == from && End(cs[|cs| - 1]) == to
      && forall i :: 0 <= i < |cs| - 1 ==> End(cs[i]) == cs[i + 1].start
  }

  /** The chunk is a complete deflate stream of the file, with what it inflates to. */
  ghost predicate Genuine(codec: Codec, file: seq<byte>, c: ImageChunk) {
    c.kind.Deflate? ==> End(c) <= |file| && codec.inflate(file[c.start..]) == Some(Inflated(c.len, c.data))
  }

  ghost predicate GenuineAll(codec: Codec, file: seq<byte>, cs: seq<ImageChunk>) {
    forall i :: 0 <= i < |cs| ==> Genuine(codec, file, cs[i]) && !cs[i].kind.Raw? && cs[i].level <= 9
  }

  lemma TilesAppend(a: seq<ImageChunk>, b: seq<ImageChunk>, from: nat, mid: nat, to: nat)
    requires Tiles(a, from, mid) && Tiles(b, mid, to)
    ensures Tiles(a + b, from, to)
  {
  }

  lemma TilesSnoc(cs: seq<ImageChunk>, c: ImageChunk, from: nat)
    requires Tiles(cs, from, c.start)
    ensures Tiles(cs + [c], from, End(c))
  {
    TilesAppend(cs, [c], from, c.start, End(c));
  }

  lemma {:induction false} TilesBounds(cs: seq<ImageChunk>, from: nat, to: nat, i: nat)
    requires Tiles(cs, from, to) && i < |cs|
    ensures from <= cs[i].start && End(cs[i]) <= to
    decreases |cs|
  {
    if |cs| > 1 {
      if i > 0 { TilesRest(cs, from, to); TilesBounds(cs[1..], End(cs[0]), to, i - 1); }
      else { TilesRest(cs, from, to); TilesBounds(cs[1..], End(cs[0]), to, 0); }
    }
  }

  lemma TilesRest(cs: seq<ImageChunk>, from: nat, to: nat)
    requires Tiles(cs, from, to) && cs != []
    ensures Tiles(cs[1..], End(cs[0]), to)
  {
  }

  // ---------- finding the chunks ----------

  const GZIP_HEADER_LEN: nat := 10
  const GZIP_FOOTER_LEN: nat := 8

  predicate MagicAt(file: seq<byte>, pos: nat) {
    pos + 4 <= |file| && file[pos..pos + 4] == [0x1f, 0x8b, 0x08, 0x00]
  }

  function LittleEndian4(file: seq<byte>, at: nat): nat
    requires at + 4 <= |file|
  {
    file[at] as int + 0x100 * (file[at + 1] as int) + 0x1_0000 * (file[at + 2] as int)
    + 0x100_0000 * (file[at + 3] as int)
  }

  /** Unsigned 64-bit subtraction. */
  function WrapSub(a: nat, b: nat): nat {
    (a - b) % (SIZE_MAX + 1)
  }

  /** The test that the footer is within the file, which subtracts without a sign. */
  predicate FooterMissing(size: nat, footerIndex: nat) {
    WrapSub(size, footerIndex) < 4
  }

  /** It is right exactly when the index is not past the end of the file. */
  lemma FooterTest(size: nat, footerIndex: nat)
    requires size <= SIZE_MAX && footerIndex <= size + 4
    ensures (FooterMissing(size, footerIndex) <==> size < footerIndex + 4) <==> footerIndex <= size
  {
    if footerIndex > size {
      assert WrapSub(size, footerIndex) == SIZE_MAX + 1 + size - footerIndex;
    }
  }

  /** At least four bytes follow every deflate stream that the scan inflates. */
  ghost predicate FootersInRange(codec: Codec, file: seq<byte>) {
    forall pos ::
      GZIP_HEADER_LEN <= pos <= |file| && MagicAt(file, pos - GZIP_HEADER_LEN) && codec.inflate(file[pos..]).Some? ==>
      pos + codec.inflate(file[pos..]).value.consumed + 4 <= |file|
  }

  /** The next gzip header from pos on, or the end of the file. */
  function NextHeader(file: seq<byte>, pos: nat): (r: nat)
    requires pos <= |file|
    ensures pos <= r <= |file| && (r == |file| || MagicAt(file, r)) && forall q :: pos <= q < r ==> !MagicAt(file, q)
    decreases |file| - pos
  {
    if pos == |file| || MagicAt(file, pos) then pos else NextHeader(file, pos + 1)
  }

  /** The deflate stream at pos, if it inflates and its footer has the right size. */
  function BodyAt(codec: Codec, file: seq<byte>, pos: nat): (r: Option<Inflated>)
    ensures r.Some? ==> pos + r.value.consumed + GZIP_FOOTER_LEN <= |file|
  {
    if pos > |file| then None
    else
      var r := codec.inflate(file[pos..]);
      if r.None? || pos + r.value.consumed + GZIP_FOOTER_LEN > |file| then None
      else if LittleEndian4(file, pos + r.value.consumed + 4) != |r.value.output| then None
      else r
  }

  /** The chunks from pos on: a gzip header with a sound body gives three chunks. */
  function Scan(codec: Codec, file: seq<byte>, pos: nat): seq<ImageChunk>
    decreases |file| - pos, 0
  {
    if pos >= |file| then []
    else if !MagicAt(file, pos) then
      [NormalChunk(pos, NextHeader(file, pos) - pos)] + Scan(codec, file, NextHeader(file, pos))
    else if |file| - pos < GZIP_HEADER_LEN + GZIP_FOOTER_LEN then [NormalChunk(pos, |file| - pos)]
    else [NormalChunk(pos, GZIP_HEADER_LEN)] + ScanBody(codec, file, pos + GZIP_HEADER_LEN)
  }

  function ScanBody(codec: Codec, file: seq<byte>, pos: nat): seq<ImageChunk>
    decreases |file| - pos, 1
  {
    var body := BodyAt(codec, file, pos);
    if body.None? then Scan(codec, file, pos)
    else
      var footer := pos + body.value.consumed;
      [ImageChunk(Deflate, pos, body.value.consumed, body.value.output, 6, ""), NormalChunk(footer, GZIP_FOOTER_LEN)]
      + Scan(codec, file, footer + GZIP_FOOTER_LEN)
  }

  /** A complete stream, followed by a footer whose last four bytes are its size, low byte first. */
  ghost predicate GoodBody(codec: Codec, file: seq<byte>, pos: nat, r: Inflated) {
    && pos <= |file| && codec.inflate(file[pos..]) == Some(r) && pos + r.consumed + 8 <= |file|
    && var at, n := pos + r.consumed + 4, |r.output|;
       && n < 0x1_0000_0000
       && file[at] as int == n % 256 && file[at + 1] as int == n / 256 % 256
       && file[at + 2] as int == n / 0x1_0000 % 256 && file[at + 3] as int == n / 0x100_0000 % 256
  }

  /** A body is accepted exactly when it is good. */
  lemma BodyIsGood(codec: Codec, file: seq<byte>, pos: nat, r: Inflated)
    ensures BodyAt(codec, file, pos) == Some(r) <==> GoodBody(codec, file, pos, r)
  {
    if pos <= |file| && codec.inflate(file[pos..]) == Some(r) && pos + r.consumed + 8 <= |file| {
      BytesOf(file, pos + r.consumed + 4, |r.output|);
    }
  }

  lemma BytesOf(file: seq<byte>, at: nat, n: nat)
    requires at + 4 <= |file|
    ensures LittleEndian4(file, at) == n <==>
              && n < 0x1_0000_0000
              && file[at] as int == n % 256 && file[at + 1] as int == n / 256 % 256
              && file[at + 2] as int == n / 0x1_0000 % 256 && file[at + 3] as int == n / 0x100_0000 % 256
  {
    var b0, b1, b2, b3 := file[at] as int, file[at + 1] as int, file[at + 2] as int, file[at + 3] as int;
    LowDigit(b0, b1 + 256 * (b2 + 256 * b3));
    LowDigit(b1, b2 + 256 * b3);
    LowDigit(b2, b3);
    if n < 0x1_0000_0000 {
      Quotients(n);
      LowDigit(n % 256, n / 256);
    }
  }

  lemma LowDigit(b: nat, m: nat)
    requires b < 256
    ensures (b + 256 * m) % 256 == b && (b + 256 * m) / 256 == m
  {
  }

  lemma Quotients(n: nat)
    ensures n / 0x1_0000 == n / 256 / 256 && n / 0x100_0000 == n / 256 / 256 / 256
    ensures n < 0x1_0000_0000 ==> n / 256 / 256 / 256 < 256
    ensures n == n % 256 + 256 * (n / 256 % 256 + 256 * (n / 256 / 256 % 256 + 256 * (n / 256 / 256 / 256)))
  {
  }

  /** Where the scan goes on after what it finds at a place. */
  function NextPlace(codec: Codec, file: seq<byte>, at: nat): (r: nat)
    requires at < |file|
    ensures at < r <= |file|
  {
    if !MagicAt(file, at) then NextHeader(file, at)
    else if |file| - at < 18 then |file|
    else
      var body := BodyAt(codec, file, at + 10);
      if body.None? then at + 10 else at + 10 + body.value.consumed + 8
  }

  /** Going on from `at` the scan comes to `pos`. */
  predicate ComesTo(codec: Codec, file: seq<byte>, at: nat, pos: nat)
    decreases |file| - at
  {
    at == pos || (at < |file| && ComesTo(codec, file, NextPlace(codec, file, at), pos))
  }

  /** The deflate chunk of a header that the scan comes to, if its body is good. */
  ghost predicate FoundAt(codec: Codec, file: seq<byte>, pos: nat, c: ImageChunk) {
    && MagicAt(file, pos) && pos + 18 <= |file|
    && GoodBody(codec, file, pos + 10, Inflated(c.len, c.data))
    && c == ImageChunk(Deflate, pos + 10, c.len, c.data, 6, "")
  }

  lemma ScanHere(codec: Codec, file: seq<byte>, at: nat, c: ImageChunk)
    requires at < |file| && c.kind.Deflate?
    ensures c in Scan(codec, file, at) <==>
              FoundAt(codec, file, at, c) || c in Scan(codec, file, NextPlace(codec, file, at))
  {
    hide MagicAt, BodyAt, GoodBody, NextHeader;
    BodyIsGood(codec, file, at + 10, Inflated(c.len, c.data));
    assert |file| <= at + 17 ==> Scan(codec, file, |file|) == [];
  }

  /** The deflate chunks of the scan are those of the good bodies it comes to, and no others. */
  lemma {:induction false} DeflatesOfScan(codec: Codec, file: seq<byte>, at: nat, c: ImageChunk)
    requires c.kind.Deflate?
    ensures c in Scan(codec, file, at) <==>
              c.start >= 10 && ComesTo(codec, file, at, c.start - 10) && FoundAt(codec, file, c.start - 10, c)
    decreases |file| - at
  {
    hide NextPlace, Scan, FoundAt;
    if at < |file| {
      ScanHere(codec, file, at, c);
      DeflatesOfScan(codec, file, NextPlace(codec, file, at), c);
      FoundStart(codec, file, at, c);
      if c.start >= 10 { FoundStart(codec, file, c.start - 10, c); }
    } else {
      NothingFound(codec, file, at, c);
    }
  }

  lemma FoundStart(codec: Codec, file: seq<byte>, pos: nat, c: ImageChunk)
    ensures FoundAt(codec, file, pos, c) ==> c.start == pos + 10
  {
  }

  lemma NothingFound(codec: Codec, file: seq<byte>, at: nat, c: ImageChunk)
    requires at >= |file|
    ensures Scan(codec, file, at) == [] && !FoundAt(codec, file, at, c)
  {
  }

  /** The chunks so far are those that the scan begins with. */
  ghost predicate ScannedSo(codec: Codec, file: seq<byte>, cs: seq<ImageChunk>, rest: seq<ImageChunk>) {
    cs + rest == Scan(codec, file, 0)
  }

  lemma ScansOne(codec: Codec, file: seq<byte>, cs: seq<ImageChunk>, c: ImageChunk, rest: seq<ImageChunk>)
    requires ScannedSo(codec, file, cs, [c] + rest)
    ensures ScannedSo(codec, file, cs + [c], rest)
  {
    assert cs + [c] + rest == cs + ([c] + rest);
  }

  lemma NextHeaderIs(file: seq<byte>, pos: nat, r: nat)
    requires pos <= r <= |file| && (r == |file| || MagicAt(file, r)) && forall q :: pos <= q < r ==> !MagicAt(file, q)
    ensures NextHeader(file, pos) == r
  {
    assert NextHeader(file, pos) == |file| || MagicAt(file, NextHeader(file, pos));
  }

  lemma GenuineSnoc(codec: Codec, file: seq<byte>, cs: seq<ImageChunk>, c: ImageChunk)
    requires GenuineAll(codec, file, cs) && Genuine(codec, file, c) && !c.kind.Raw? && c.level <= 9
    ensures GenuineAll(codec, file, cs + [c])
  {
  }

  // ---------- compacting runs of normal chunks ----------

  predicate IsAdjacentNormal(c: ImageChunk, d: ImageChunk) {
    c.kind.Normal? && d.kind.Normal? && d.start == End(c)
  }

  function MergeTwo(c: ImageChunk, d: ImageChunk): ImageChunk {
    c.(len := c.len + d.len)
  }

  /** The list with every run of adjacent normal chunks made one. */
  function Compact(cs: seq<ImageChunk>): seq<ImageChunk>
    decreases |cs|
  {
    if |cs| <= 1 then cs
    else if IsAdjacentNormal(cs[0], cs[1]) then Compact([MergeTwo(cs[0], cs[1])] + cs[2..])
    else [cs[0]] + Compact(cs[1..])
  }

  /** A compacted list starts as the list does, with a chunk that may have grown. */
  lemma {:induction false} CompactHead(cs: seq<ImageChunk>)
    requires cs != []
    ensures Compact(cs) != [] && Compact(cs)[0].start == cs[0].start && Compact(cs)[0].kind == cs[0].kind
    decreases |cs|
  {
    if |cs| > 1 && IsAdjacentNormal(cs[0], cs[1]) {
      CompactHead([MergeTwo(cs[0], cs[1])] + cs[2..]);
    }
  }

  /** No two neighbours could still be merged. */
  lemma {:induction false} CompactIsCompact(cs: seq<ImageChunk>)
    ensures var r := Compact(cs); forall i :: 0 <= i < |r| - 1 ==> !IsAdjacentNormal(r[i], r[i + 1])
    decreases |cs|
  {
    if |cs| <= 1 {
    } else if IsAdjacentNormal(cs[0], cs[1]) {
      var merged := [MergeTwo(cs[0], cs[1])] + cs[2..];
      CompactIsCompact(merged);
      assert Compact(cs) == Compact(merged);
    } else {
      CompactIsCompact(cs[1..]);
      CompactHead(cs[1..]);
      var r, rest := Compact(cs), Compact(cs[1..]);
      forall i | 0 <= i < |r| - 1 ensures !IsAdjacentNormal(r[i], r[i + 1]) {
        if i > 0 { assert r[i] == rest[i - 1] && r[i + 1] == rest[i]; }
      }
    }
  }

  lemma MergedTiles(cs: seq<ImageChunk>, from: nat, to: nat)
    requires |cs| > 1 && Tiles(cs, from, to)
    ensures Tiles([MergeTwo(cs[0], cs[1])] + cs[2..], from, to)
  {
    TilesRest(cs, from, to);
    TilesRest(cs[1..], End(cs[0]), to);
    assert cs[1..][1..] == cs[2..];
    TilesAppend([MergeTwo(cs[0], cs[1])], cs[2..], from, End(cs[1]), to);
  }

  /** Compacting keeps what the chunks cover. */
  lemma {:induction false} CompactTiles(cs: seq<ImageChunk>, from: nat, to: nat)
    requires Tiles(cs, from, to)
    ensures Tiles(Compact(cs), from, to)
    decreases |cs|
  {
    hide Tiles;
    if |cs| <= 1 {
    } else if IsAdjacentNormal(cs[0], cs[1]) {
      MergedTiles(cs, from, to);
      CompactTiles([MergeTwo(cs[0], cs[1])] + cs[2..], from, to);
    } else {
      TilesRest(cs, from, to);
      CompactTiles(cs[1..], End(cs[0]), to);
      TilesOne(cs, from, to);
      TilesAppend([cs[0]], Compact(cs[1..]), from, End(cs[0]), to);
    }
  }

  lemma TilesOne(cs: seq<ImageChunk>, from: nat, to: nat)
    requires Tiles(cs, from, to) && cs != []
    ensures Tiles([cs[0]], from, End(cs[0]))
  {
  }

  /** The deflate chunks of a list, in order. */
  function Deflates(cs: seq<ImageChunk>): seq<ImageChunk> {
    if cs == [] then [] else (if cs[0].kind.Deflate? then [cs[0]] else []) + Deflates(cs[1..])
  }

  /** Compacting keeps every deflate chunk as it is. */
  lemma {:induction false} CompactKeepsDeflates(cs: seq<ImageChunk>)
    ensures Deflates(Compact(cs)) == Deflates(cs)
    decreases |cs|
  {
    if |cs| <= 1 {
    } else if IsAdjacentNormal(cs[0], cs[1]) {
      var merged := [MergeTwo(cs[0], cs[1])] + cs[2..];
      CompactKeepsDeflates(merged);
      assert merged[1..] == cs[2..] && cs[1..][1..] == cs[2..];
    } else {
      CompactKeepsDeflates(cs[1..]);
      assert Compact(cs)[1..] == Compact(cs[1..]);
    }
  }

  lemma {:induction false} DeflatesIn(cs: seq<ImageChunk>, c: ImageChunk)
    ensures c in Deflates(cs) <==> c in cs && c.kind.Deflate?
  {
    if cs != [] { DeflatesIn(cs[1..], c); }
  }

  function Types(cs: seq<ImageChunk>): (ts: seq<ChunkType>)
    ensures |ts| == |cs|
  {
    seq(|cs|, i requires 0 <= i < |cs| => cs[i].kind)
  }

  function CompactTypes(ts: seq<ChunkType>): seq<ChunkType> {
    if |ts| <= 1 then ts
    else if ts[0].Normal? && ts[1].Normal? then CompactTypes(ts[1..])
    else [ts[0]] + CompactTypes(ts[1..])
  }

  /** In a list without gaps, how it compacts depends on the types alone. */
  lemma {:induction false} CompactByTypes(cs: seq<ImageChunk>, from: nat, to: nat)
    requires Tiles(cs, from, to)
    ensures Types(Compact(cs)) == CompactTypes(Types(cs))
    decreases |cs|
  {
    hide Tiles;
    if |cs| > 1 {
      FirstTwo(cs, from, to);
      assert Types(cs)[1..] == Types(cs[1..]);
      if IsAdjacentNormal(cs[0], cs[1]) {
        var merged := [MergeTwo(cs[0], cs[1])] + cs[2..];
        MergedTiles(cs, from, to);
        CompactByTypes(merged, from, to);
        assert Types(merged) == Types(cs[1..]);
      } else {
        TilesRest(cs, from, to);
        CompactByTypes(cs[1..], End(cs[0]), to);
        assert Types([cs[0]] + Compact(cs[1..])) == [cs[0].kind] + Types(Compact(cs[1..]));
      }
    }
  }

  lemma FirstTwo(cs: seq<ImageChunk>, from: nat, to: nat)
    requires Tiles(cs, from, to) && |cs| > 1
    ensures cs[1].start == End(cs[0])
  {
  }

  lemma CompactGenuine(codec: Codec, file: seq<byte>, cs: seq<ImageChunk>)
    requires GenuineAll(codec, file, cs)
    ensures GenuineAll(codec, file, Compact(cs))
  {
    var r := Compact(cs);
    CompactKeepsDeflates(cs);
    forall i | 0 <= i < |r| ensures Genuine(codec, file, r[i]) && !r[i].kind.Raw? && r[i].level <= 9 {
      CompactTypesIn(cs, i);
      if r[i].kind.Deflate? {
        DeflatesIn(r, r[i]);
        DeflatesIn(cs, r[i]);
      }
    }
  }

  predicate SameKind(c: ImageChunk, d: ImageChunk) {
    c.kind == d.kind && c.level == d.level
  }

  /** A type and level in the compacted list was in the list. */
  lemma {:induction false} CompactTypesIn(cs: seq<ImageChunk>, i: nat)
    requires i < |Compact(cs)|
    ensures exists j :: 0 <= j < |cs| && SameKind(cs[j], Compact(cs)[i])
    decreases |cs|
  {
    if |cs| <= 1 {
    } else if IsAdjacentNormal(cs[0], cs[1]) {
      var merged := [MergeTwo(cs[0], cs[1])] + cs[2..];
      CompactTypesIn(merged, i);
      var j :| 0 <= j < |merged| && SameKind(merged[j], Compact(cs)[i]);
      assert SameKind(cs[if j == 0 then 0 else j + 1], merged[j]);
    } else if i > 0 {
      CompactTypesIn(cs[1..], i - 1);
      var j :| 0 <= j < |cs[1..]| && SameKind(cs[1..][j], Compact(cs)[i]);
      assert cs[j + 1] == cs[1..][j];
    }
  }

  /** Chunks before mergedLast are compacted, those from cur on are as they were. */
  ghost predicate Compacting(chunks0: seq<ImageChunk>, chunks: seq<ImageChunk>, mergedLast: nat, cur: nat) {
    && |chunks| == |chunks0| && mergedLast <= cur <= |chunks| && chunks[cur..] == chunks0[cur..]
    && chunks[..mergedLast] + Compact(chunks0[cur..]) == Compact(chunks0)
  }

  /** Chunk cur has absorbed the chunks up to toCheck. */
  ghost predicate Extending(chunks0: seq<ImageChunk>, before: seq<ImageChunk>, chunks: seq<ImageChunk>, cur: nat,
                            toCheck: nat) {
    && |chunks| == |before| == |chunks0| && cur < toCheck <= |chunks| && chunks[..cur] == before[..cur]
    && chunks[toCheck..] == chunks0[toCheck..]
    && Compact([chunks[cur]] + chunks[toCheck..]) == Compact(chunks0[cur..])
  }

  lemma ExtendingStarts(chunks0: seq<ImageChunk>, chunks: seq<ImageChunk>, mergedLast: nat, cur: nat)
    requires Compacting(chunks0, chunks, mergedLast, cur) && cur < |chunks|
    ensures Extending(chunks0, chunks, chunks, cur, cur + 1)
  {
    hide Compact;
    assert chunks[cur..] == [chunks[cur]] + chunks[cur + 1..];
    assert chunks[cur + 1..] == chunks[cur..][1..] && chunks0[cur + 1..] == chunks0[cur..][1..];
  }

  lemma ExtendingStep(chunks0: seq<ImageChunk>, before: seq<ImageChunk>, chunks: seq<ImageChunk>, cur: nat,
                      toCheck: nat)
    requires Extending(chunks0, before, chunks, cur, toCheck) && toCheck < |chunks|
    requires IsAdjacentNormal(chunks[cur], chunks[toCheck])
    ensures Extending(chunks0, before, chunks[cur := MergeTwo(chunks[cur], chunks[toCheck])], cur, toCheck + 1)
  {
    hide Compact;
    CompactMerges(chunks[cur], chunks[toCheck..]);
    var chunks' := chunks[cur := MergeTwo(chunks[cur], chunks[toCheck])];
    assert chunks[toCheck..][1..] == chunks[toCheck + 1..] && chunks0[toCheck..][1..] == chunks0[toCheck + 1..];
    assert chunks'[toCheck + 1..] == chunks[toCheck + 1..];
    assert chunks'[..cur] == chunks[..cur];
  }

  lemma ExtendingEnds(chunks0: seq<ImageChunk>, before: seq<ImageChunk>, chunks: seq<ImageChunk>, mergedLast: nat,
                      cur: nat, toCheck: nat)
    requires Compacting(chunks0, before, mergedLast, cur) && Extending(chunks0, before, chunks, cur, toCheck)
    requires toCheck < |chunks| ==> !IsAdjacentNormal(chunks[cur], chunks[toCheck])
    ensures Compacting(chunks0, chunks[mergedLast := chunks[cur]], mergedLast + 1, toCheck)
  {
    hide Compact;
    var c, rest := chunks[cur], chunks[toCheck..];
    CompactKeeps(c, rest);
    var done, chunks' := before[..mergedLast], chunks[mergedLast := c];
    assert chunks[..mergedLast] == chunks[..cur][..mergedLast] == before[..cur][..mergedLast] == done;
    assert chunks'[..mergedLast + 1] == done + [c];
    assert chunks'[toCheck..] == chunks[toCheck..];
    assert done + [c] + Compact(rest) == done + ([c] + Compact(rest));
  }

  lemma CompactingStarts(chunks0: seq<ImageChunk>)
    ensures Compacting(chunks0, chunks0, 0, 0)
  {
    assert chunks0[..0] + Compact(chunks0[0..]) == Compact(chunks0);
  }

  lemma CompactingEnds(chunks0: seq<ImageChunk>, chunks: seq<ImageChunk>, mergedLast: nat)
    requires Compacting(chunks0, chunks, mergedLast, |chunks|)
    ensures chunks[..mergedLast] == Compact(chunks0)
  {
    assert chunks0[|chunks|..] == [];
  }

  lemma CompactMerges(c: ImageChunk, rest: seq<ImageChunk>)
    requires rest != [] && IsAdjacentNormal(c, rest[0])
    ensures Compact([c] + rest) == Compact([MergeTwo(c, rest[0])] + rest[1..])
  {
    assert ([c] + rest)[2..] == rest[1..];
  }

  lemma CompactKeeps(c: ImageChunk, rest: seq<ImageChunk>)
    requires rest == [] || !IsAdjacentNormal(c, rest[0])
    ensures Compact([c] + rest) == [c] + Compact(rest)
  {
    assert ([c] + rest)[1..] == rest;
  }

  class Image {
    const codec: Codec
    var fileContent: seq<byte>
    var chunks_: seq<ImageChunk>

    constructor (codec: Codec)
      ensures this.codec == codec && chunks_ == []
    {
      this.codec := codec;
      fileContent, chunks_ := [], [];
    }

    /** The chunks tile the file, and its deflate chunks are deflate streams. */
    ghost predicate Valid()
      reads this
    {
      Tiles(chunks_, 0, |fileContent|) && GenuineAll(codec, fileContent, chunks_)
    }

    ghost predicate Scanned(pos: nat)
      reads this
    {
      pos <= |fileContent| && Tiles(chunks_, 0, pos) && GenuineAll(codec, fileContent, chunks_)
    }

    /** Add a chunk where the scan is. */
    method Emplace(c: ImageChunk)
      requires Scanned(c.start) && End(c) <= |fileContent| && Genuine(codec, fileContent, c)
      requires !c.kind.Raw? && c.level <= 9
      modifies this`chunks_
      ensures Scanned(End(c)) && chunks_ == old(chunks_) + [c]
    {
      TilesSnoc(chunks_, c, 0);
      GenuineSnoc(codec, fileContent, chunks_, c);
      chunks_ := chunks_ + [c];
    }

    /** Split the file at its gzip streams. */
    method Initialize(file: seq<byte>)
      requires chunks_ == [] && Lawful(codec) && FootersInRange(codec, file) && |file| <= SIZE_MAX
      modifies this
      ensures fileContent == file && Valid() && chunks_ == Scan(codec, file, 0)
    {
      hide Tiles, GenuineAll, LawfulDiff, LawfulInflate, MagicAt, ScanBody, ScannedSo;
      fileContent := file;
      var sz, pos := |file|, 0;
      NothingScanned();
      while pos < sz
        invariant fileContent == file && pos <= sz && Scanned(pos)
                  && ScannedSo(codec, file, chunks_, Scan(codec, file, pos))
      {
        if sz - pos >= 4 && MagicAt(file, pos) {
          if sz - pos < GZIP_HEADER_LEN + GZIP_FOOTER_LEN {
            assert [NormalChunk(pos, sz - pos)] + [] == [NormalChunk(pos, sz - pos)];
            pos := AddNormal(pos, sz - pos, []);
            break;
          }
          pos := AddNormal(pos, GZIP_HEADER_LEN, ScanBody(codec, file, pos + GZIP_HEADER_LEN));
          pos := AddBody(pos);
        } else {
          MagicFits(file, pos);
          var dataLen := ScanForward(pos);
          pos := AddNormal(pos, dataLen, Scan(codec, file, pos + dataLen));
        }
      }
      AllScanned(pos);
    }

    lemma MagicFits(file: seq<byte>, pos: nat)
      ensures MagicAt(file, pos) ==> pos + 4 <= |file|
    {
    }

    lemma AllScanned(pos: nat)
      requires pos == |fileContent| && Scanned(pos) && ScannedSo(codec, fileContent, chunks_, [])
      ensures Valid() && chunks_ == Scan(codec, fileContent, 0)
    {
      assert chunks_ + [] == chunks_;
    }

    /** Add a normal chunk where the scan is, and go past it. */
    method AddNormal(pos: nat, len: nat, ghost rest: seq<ImageChunk>) returns (after: nat)
      requires Scanned(pos) && pos + len <= |fileContent|
      requires ScannedSo(codec, fileContent, chunks_, [NormalChunk(pos, len)] + rest)
      modifies this`chunks_
      ensures after == pos + len && Scanned(after) && ScannedSo(codec, fileContent, chunks_, rest)
    {
      hide ScannedSo, Scanned;
      ScansOne(codec, fileContent, chunks_, NormalChunk(pos, len), rest);
      Emplace(NormalChunk(pos, len));
      return pos + len;
    }

    /** Runs of adjacent normal chunks become one chunk each, in place. */
    method MergeAdjacentNormalChunks()
      modifies this`chunks_
      ensures chunks_ == Compact(old(chunks_))
    {
      hide Compact, Compacting, Extending;
      ghost var chunks0 := chunks_;
      CompactingStarts(chunks_);
      var mergedLast, cur := 0, 0;
      while cur < |chunks_|
        invariant 0 <= mergedLast <= cur <= |chunks_| && Compacting(chunks0, chunks_, mergedLast, cur)
      {
        ghost var before := chunks_;
        var toCheck := cur + 1;
        ExtendingStarts(chunks0, chunks_, mergedLast, cur);
        while toCheck < |chunks_| && IsAdjacentNormal(chunks_[cur], chunks_[toCheck])
          invariant |chunks_| == |before| && cur < toCheck <= |chunks_|
                    && Extending(chunks0, before, chunks_, cur, toCheck)
        {
          ExtendingStep(chunks0, before, chunks_, cur, toCheck);
          chunks_ := chunks_[cur := MergeTwo(chunks_[cur], chunks_[toCheck])];
          toCheck := toCheck + 1;
        }
        ExtendingEnds(chunks0, before, chunks_, mergedLast, cur, toCheck);
        if mergedLast != cur {
          chunks_ := chunks_[mergedLast := chunks_[cur]];
        } else {
          assert chunks_[mergedLast := chunks_[cur]] == chunks_;
        }
        mergedLast := mergedLast + 1;
        cur := toCheck;
      }
      CompactingEnds(chunks0, chunks_, mergedLast);
      if mergedLast < |chunks_| {
        chunks_ := chunks_[..mergedLast];
      } else {
        assert chunks_ == chunks_[..mergedLast];
      }
    }

    /** Bonus data goes after what the second chunk of the source inflates to. */
    method SetBonusData(bonus: seq<byte>) returns (ok: bool)
      modifies this`chunks_
      ensures ok <==> |old(chunks_)| >= 2 && old(chunks_)[1].kind.Deflate?
      ensures chunks_ == if ok then old(chunks_)[1 := old(chunks_)[1].(data := old(chunks_)[1].data + bonus)]
              else old(chunks_)
    {
      if |chunks_| < 2 || !chunks_[1].kind.Deflate? { return false; }
      chunks_ := chunks_[1 := chunks_[1].(data := chunks_[1].data + bonus)];
      return true;
    }

    lemma NothingScanned()
      requires chunks_ == []
      ensures Scanned(0) && ScannedSo(codec, fileContent, chunks_, Scan(codec, fileContent, 0))
    {
      assert [] + Scan(codec, fileContent, 0) == Scan(codec, fileContent, 0);
    }

    /** The body and footer after a gzip header, unless it turns out not to be one. */
    method AddBody(pos: nat) returns (after: nat)
      requires Scanned(pos) && GZIP_HEADER_LEN <= pos && MagicAt(fileContent, pos - GZIP_HEADER_LEN)
      requires ConsumesInput(codec) && FootersInRange(codec, fileContent) && |fileContent| <= SIZE_MAX
      requires ScannedSo(codec, fileContent, chunks_, ScanBody(codec, fileContent, pos))
      modifies this`chunks_
      ensures Scanned(after) && pos <= after
      ensures ScannedSo(codec, fileContent, chunks_, Scan(codec, fileContent, after))
    {
      hide Tiles, GenuineAll, Scanned, ScannedSo, Scan;
      ScannedBound(pos);
      var sz := |fileContent|;
      var r := codec.inflate(fileContent[pos..]);
      if r.None? { return pos; }
      var rawDataLen, uncompressedLen := r.value.consumed, |r.value.output|;
      var footerIndex := pos + rawDataLen + GZIP_FOOTER_LEN - 4;
      FooterTest(sz, footerIndex);
      if FooterMissing(sz, footerIndex) { return pos; }
      var footerSize := LittleEndian4(fileContent, footerIndex);
      if footerSize != uncompressedLen { return pos; }
      var body := ImageChunk(Deflate, pos, rawDataLen, r.value.output, 6, "");
      ghost var footer := NormalChunk(pos + rawDataLen, GZIP_FOOTER_LEN);
      ghost var rest := Scan(codec, fileContent, pos + rawDataLen + GZIP_FOOTER_LEN);
      assert [body, footer] + rest == [body] + ([footer] + rest);
      ScansOne(codec, fileContent, chunks_, body, [footer] + rest);
      Emplace(body);
      after := AddNormal(pos + rawDataLen, GZIP_FOOTER_LEN, rest);
    }

    lemma ScannedBound(pos: nat)
      requires Scanned(pos)
      ensures pos <= |fileContent|
    {
    }

    /** Length of the data up to the next gzip header or the end. */
    method ScanForward(pos: nat) returns (dataLen: nat)
      requires pos < |fileContent| && !MagicAt(fileContent, pos)
      ensures 0 < dataLen && pos + dataLen == NextHeader(fileContent, pos)
    {
      dataLen := 0;
      while dataLen + pos < |fileContent|
        invariant 0 <= dataLen && pos + dataLen <= |fileContent|
        invariant forall q :: pos <= q < pos + dataLen ==> !MagicAt(fileContent, q)
      {
        if MagicAt(fileContent, pos + dataLen) { break; }
        dataLen := dataLen + 1;
      }
      NextHeaderIs(fileContent, pos, pos + dataLen);
    }
  }

  // ---------- pairing the chunks of two images ----------

  /** Deflating the chunk's data again gives the bytes of the file. */
  ghost predicate Reproducible(codec: Codec, file: seq<byte>, c: ImageChunk) {
    c.kind.Deflate? ==> End(c) <= |file| && codec.deflate(c.data, Params(c.level)) == RawData(c, file)
  }

  ghost predicate ReproducibleBelow(codec: Codec, file: seq<byte>, cs: seq<ImageChunk>, n: nat) {
    forall j :: 0 <= j < n && j < |cs| ==> Reproducible(codec, file, cs[j])
  }

  ghost predicate WellChunked(codec: Codec, file: seq<byte>, cs: seq<ImageChunk>) {
    Tiles(cs, 0, |file|) && GenuineAll(codec, file, cs)
  }

  lemma CompactWellChunked(codec: Codec, file: seq<byte>, cs: seq<ImageChunk>)
    requires WellChunked(codec, file, cs)
    ensures WellChunked(codec, file, Compact(cs)) && Types(Compact(cs)) == CompactTypes(Types(cs))
  {
    hide *;
    assert Tiles(cs, 0, |file|) && GenuineAll(codec, file, cs) by { WellChunkedParts(codec, file, cs); }
    CompactTiles(cs, 0, |file|);
    CompactGenuine(codec, file, cs);
    CompactByTypes(cs, 0, |file|);
    WellChunkedWhole(codec, file, Compact(cs));
  }

  lemma WellChunkedParts(codec: Codec, file: seq<byte>, cs: seq<ImageChunk>)
    requires WellChunked(codec, file, cs)
    ensures Tiles(cs, 0, |file|) && GenuineAll(codec, file, cs)
  {
  }

  lemma WellChunkedWhole(codec: Codec, file: seq<byte>, cs: seq<ImageChunk>)
    requires Tiles(cs, 0, |file|) && GenuineAll(codec, file, cs)
    ensures WellChunked(codec, file, cs)
  {
  }

  lemma CompactReproducible(codec: Codec, file: seq<byte>, cs: seq<ImageChunk>)
    requires ReproducibleBelow(codec, file, cs, |cs|)
    ensures ReproducibleBelow(codec, file, Compact(cs), |Compact(cs)|)
  {
    var r := Compact(cs);
    CompactKeepsDeflates(cs);
    forall j | 0 <= j < |r| ensures Reproducible(codec, file, r[j]) {
      if r[j].kind.Deflate? {
        DeflatesIn(r, r[j]);
        DeflatesIn(cs, r[j]);
      }
    }
  }

  lemma ChunkWithin(codec: Codec, file: seq<byte>, cs: seq<ImageChunk>, i: nat)
    requires WellChunked(codec, file, cs) && i < |cs|
    ensures End(cs[i]) <= |file| && cs[i].level <= 9
  {
    TilesBounds(cs, 0, |file|, i);
  }

  /** Changing a chunk to normal, or noting its level, keeps the list well chunked. */
  lemma ChangedChunk(codec: Codec, file: seq<byte>, cs: seq<ImageChunk>, i: nat, c: ImageChunk)
    requires WellChunked(codec, file, cs) && i < |cs| && (c == ToNormal(cs[i]) || c == cs[i].(level := c.level))
             && c.level <= 9
    ensures WellChunked(codec, file, cs[i := c])
    ensures Types(cs[i := c]) == Types(cs)[i := c.kind]
  {
  }

  lemma ReproducibleNext(codec: Codec, file: seq<byte>, cs: seq<ImageChunk>, i: nat, c: ImageChunk)
    requires ReproducibleBelow(codec, file, cs, i) && i < |cs| && Reproducible(codec, file, c)
    ensures ReproducibleBelow(codec, file, cs[i := c], i + 1)
  {
  }

  lemma SameTypes(cs: seq<ImageChunk>, ds: seq<ImageChunk>)
    requires |cs| == |ds| && forall j :: 0 <= j < |cs| ==> cs[j].kind == ds[j].kind
    ensures Types(cs) == Types(ds)
  {
  }

  lemma TypeAt(cs: seq<ImageChunk>, ds: seq<ImageChunk>, i: nat)
    requires Types(cs) == Types(ds) && i < |cs|
    ensures i < |ds| && cs[i].kind == ds[i].kind
  {
    assert Types(cs)[i] == Types(ds)[i];
  }

  /** Deflate again with level 6, then 9. */
  method ReconstructDeflateChunk(codec: Codec, file: seq<byte>, c: ImageChunk) returns (ok: bool, level: nat)
    requires c.kind.Deflate? && End(c) <= |file|
    ensures ok <==> exists l :: l in {6, 9} && codec.deflate(c.data, Params(l)) == RawData(c, file)
    ensures ok ==>
              Reproducible(codec, file, c.(level := level)) && codec.deflate(c.data, Params(level)) == RawData(c, file)
    ensures ok ==> level in {6, 9}
    ensures ok && level == 9 ==> codec.deflate(c.data, Params(6)) != RawData(c, file)
  {
    level := 6;
    while level <= 9
      invariant level in {6, 9, 12}
      invariant level > 6 ==> codec.deflate(c.data, Params(6)) != RawData(c, file)
      invariant level > 9 ==> codec.deflate(c.data, Params(9)) != RawData(c, file)
    {
      if codec.deflate(c.data, Params(level)) == RawData(c, file) { return true, level; }
      level := level + 3;
    }
    return false, level;
  }

  /** What becomes of a target chunk next to its source chunk: it stays a deflate chunk, with the level
      that reproduces it, exactly when it differs from the source and some level does. */
  function Choose(codec: Codec, tfile: seq<byte>, c: ImageChunk, sfile: seq<byte>, d: ImageChunk): ImageChunk {
    if !c.kind.Deflate? || End(c) > |tfile| || End(d) > |sfile| then c
    else if SameChunk(c, tfile, d, sfile) then ToNormal(c)
    else if codec.deflate(c.data, Params(6)) == RawData(c, tfile) then c.(level := 6)
    else if codec.deflate(c.data, Params(9)) == RawData(c, tfile) then c.(level := 9)
    else ToNormal(c)
  }

  /** When a target chunk stays a deflate chunk, in terms of the bytes. */
  lemma ChooseMeans(codec: Codec, tfile: seq<byte>, c: ImageChunk, sfile: seq<byte>, d: ImageChunk)
    requires End(c) <= |tfile| && End(d) <= |sfile| && c.kind.Deflate?
    ensures var r := Choose(codec, tfile, c, sfile, d);
            var raw := tfile[c.start..c.start + c.len];
            && (r.kind.Deflate? <==>
                  && !(d.kind.Deflate? && raw == sfile[d.start..d.start + d.len])
                  && (codec.deflate(c.data, DeflateParams(6, 8, -15, 8, 0)) == raw
                      || codec.deflate(c.data, DeflateParams(9, 8, -15, 8, 0)) == raw))
            && (r.kind.Deflate? ==>
                  && r == c.(level := r.level)
                  && r.level == (if codec.deflate(c.data, DeflateParams(6, 8, -15, 8, 0)) == raw then 6 else 9))
            && (!r.kind.Deflate? ==> r.kind.Normal? && r.start == c.start && r.len == c.len)
  {
    assert tfile[c.start..c.start + c.len] == sfile[d.start..d.start + d.len] ==> c.len == d.len by {
      assert |tfile[c.start..c.start + c.len]| == c.len && |sfile[d.start..d.start + d.len]| == d.len;
    }
  }

  /** The source chunk follows its target. */
  function Follow(c: ImageChunk, d: ImageChunk): ImageChunk {
    if c.kind.Deflate? then d else ToNormal(d)
  }

  function ChooseAll(codec: Codec, tfile: seq<byte>, tcs: seq<ImageChunk>, sfile: seq<byte>,
                     scs: seq<ImageChunk>): seq<ImageChunk>
    requires |tcs| == |scs|
  {
    seq(|tcs|, i requires 0 <= i < |tcs| => Choose(codec, tfile, tcs[i], sfile, scs[i]))
  }

  function FollowAll(tcs: seq<ImageChunk>, scs: seq<ImageChunk>): seq<ImageChunk>
    requires |tcs| == |scs|
  {
    seq(|tcs|, i requires 0 <= i < |tcs| => Follow(tcs[i], scs[i]))
  }

  /** The first i pairs have been processed. */
  ghost predicate Chosen(codec: Codec, tfile: seq<byte>, tcs0: seq<ImageChunk>, tcs: seq<ImageChunk>,
                         sfile: seq<byte>, scs0: seq<ImageChunk>, scs: seq<ImageChunk>, i: nat)
  {
    && |tcs0| == |scs0| == |tcs| == |scs| && i <= |tcs|
    && tcs == ChooseAll(codec, tfile, tcs0, sfile, scs0)[..i] + tcs0[i..]
    && scs == FollowAll(ChooseAll(codec, tfile, tcs0, sfile, scs0), scs0)[..i] + scs0[i..]
  }

  lemma ChosenStarts(codec: Codec, tfile: seq<byte>, tcs: seq<ImageChunk>, sfile: seq<byte>, scs: seq<ImageChunk>)
    requires |tcs| == |scs|
    ensures Chosen(codec, tfile, tcs, tcs, sfile, scs, scs, 0)
  {
  }

  lemma ChosenStep(codec: Codec, tfile: seq<byte>, tcs0: seq<ImageChunk>, tcs: seq<ImageChunk>,
                   sfile: seq<byte>, scs0: seq<ImageChunk>, scs: seq<ImageChunk>, i: nat)
    requires Chosen(codec, tfile, tcs0, tcs, sfile, scs0, scs, i) && i < |tcs|
    ensures var c := Choose(codec, tfile, tcs[i], sfile, scs[i]);
            Chosen(codec, tfile, tcs0, tcs[i := c], sfile, scs0, scs[i := Follow(c, scs[i])], i + 1)
  {
    hide Choose, Follow;
    assert tcs[i] == tcs0[i] && scs[i] == scs0[i];
  }

  lemma ChosenEnds(codec: Codec, tfile: seq<byte>, tcs0: seq<ImageChunk>, tcs: seq<ImageChunk>,
                   sfile: seq<byte>, scs0: seq<ImageChunk>, scs: seq<ImageChunk>)
    requires Chosen(codec, tfile, tcs0, tcs, sfile, scs0, scs, |tcs|)
    ensures tcs == ChooseAll(codec, tfile, tcs0, sfile, scs0) && scs == FollowAll(tcs, scs0)
  {
    hide Choose, Follow;
  }

  /** Both images are well chunked, with the same types, and the first i target chunks can be reproduced. */
  ghost predicate Paired(codec: Codec, tfile: seq<byte>, tcs: seq<ImageChunk>, sfile: seq<byte>, scs: seq<ImageChunk>,
                         i: nat) {
    && WellChunked(codec, tfile, tcs) && WellChunked(codec, sfile, scs)
    && Types(tcs) == Types(scs) && i <= |tcs| && ReproducibleBelow(codec, tfile, tcs, i)
  }

  lemma PairedAt(codec: Codec, tfile: seq<byte>, tcs: seq<ImageChunk>, sfile: seq<byte>, scs: seq<ImageChunk>, i: nat)
    requires Paired(codec, tfile, tcs, sfile, scs, i) && i < |tcs|
    ensures |scs| == |tcs| && tcs[i].kind == scs[i].kind && End(tcs[i]) <= |tfile| && End(scs[i]) <= |sfile|
    ensures tcs[i].level <= 9 && scs[i].level <= 9
  {
    hide WellChunked;
    TypeAt(tcs, scs, i);
    ChunkWithin(codec, tfile, tcs, i);
    ChunkWithin(codec, sfile, scs, i);
  }

  lemma PairNext(codec: Codec, tfile: seq<byte>, tcs: seq<ImageChunk>, sfile: seq<byte>, scs: seq<ImageChunk>, i: nat,
                 c: ImageChunk, d: ImageChunk)
    requires Paired(codec, tfile, tcs, sfile, scs, i) && i < |tcs| == |scs|
    requires (c == ToNormal(tcs[i]) || c == tcs[i].(level := c.level)) && c.level <= 9 && d.level <= 9
    requires d == ToNormal(scs[i]) || d == scs[i]
    requires c.kind == d.kind && Reproducible(codec, tfile, c)
    ensures Paired(codec, tfile, tcs[i := c], sfile, scs[i := d], i + 1)
  {
    hide WellChunked, Reproducible, ReproducibleBelow;
    ChangedChunk(codec, tfile, tcs, i, c);
    assert d == scs[i].(level := d.level) || d == ToNormal(scs[i]);
    ChangedChunk(codec, sfile, scs, i, d);
    ReproducibleNext(codec, tfile, tcs, i, c);
  }

  lemma PairedCompacts(codec: Codec, tfile: seq<byte>, tcs: seq<ImageChunk>, sfile: seq<byte>, scs: seq<ImageChunk>)
    requires Paired(codec, tfile, tcs, sfile, scs, |tcs|)
    ensures Paired(codec, tfile, Compact(tcs), sfile, Compact(scs), |Compact(tcs)|)
  {
    hide WellChunked, ReproducibleBelow;
    CompactWellChunked(codec, tfile, tcs);
    CompactWellChunked(codec, sfile, scs);
    CompactReproducible(codec, tfile, tcs);
  }

  /** The chunks of the two lists have the same types. */
  method SameStructure(tcs: seq<ImageChunk>, scs: seq<ImageChunk>) returns (same: bool)
    requires |tcs| == |scs|
    ensures same <==> Types(tcs) == Types(scs)
  {
    var i := 0;
    while i < |tcs|
      invariant 0 <= i <= |tcs| && forall j :: 0 <= j < i ==> tcs[j].kind == scs[j].kind
    {
      if tcs[i].kind != scs[i].kind {
        assert Types(tcs)[i] != Types(scs)[i];
        return false;
      }
      i := i + 1;
    }
    SameTypes(tcs, scs);
    return true;
  }

  /** Succeeds exactly when the two images compact to the same sequence of types; the last comparison
      of chunk counts never fails. */
  method CheckAndProcessChunks(tgtImage: Image, srcImage: Image) returns (ok: bool)
    requires tgtImage != srcImage && tgtImage.Valid() && srcImage.Valid() && tgtImage.codec == srcImage.codec
    modifies tgtImage`chunks_, srcImage`chunks_
    ensures ok <==> CompactTypes(Types(old(tgtImage.chunks_))) == CompactTypes(Types(old(srcImage.chunks_)))
    ensures ok ==> Paired(tgtImage.codec, tgtImage.fileContent, tgtImage.chunks_,
                          srcImage.fileContent, srcImage.chunks_, |tgtImage.chunks_|)
    ensures ok ==> var tcs, scs := Compact(old(tgtImage.chunks_)), Compact(old(srcImage.chunks_));
                   && |tcs| == |scs|
                   && var chosen := ChooseAll(tgtImage.codec, tgtImage.fileContent, tcs, srcImage.fileContent, scs);
                      tgtImage.chunks_ == Compact(chosen) && srcImage.chunks_ == Compact(FollowAll(chosen, scs))
  {
    hide Chosen, ChooseAll, FollowAll, Choose, Compact, CompactTypes, Tiles, GenuineAll, WellChunked, Paired,
      ReproducibleBelow, RawData;
    ghost var codec, tfile, sfile := tgtImage.codec, tgtImage.fileContent, srcImage.fileContent;
    WellChunkedWhole(codec, tfile, tgtImage.chunks_);
    WellChunkedWhole(codec, sfile, srcImage.chunks_);
    CompactWellChunked(codec, tfile, tgtImage.chunks_);
    CompactWellChunked(codec, sfile, srcImage.chunks_);
    tgtImage.MergeAdjacentNormalChunks();
    srcImage.MergeAdjacentNormalChunks();
    if |tgtImage.chunks_| != |srcImage.chunks_| { return false; }
    var same := SameStructure(tgtImage.chunks_, srcImage.chunks_);
    if !same { return false; }
    PairedStarts(codec, tfile, tgtImage.chunks_, sfile, srcImage.chunks_);
    ProcessPairs(tgtImage, srcImage);
    PairedCompacts(codec, tfile, tgtImage.chunks_, sfile, srcImage.chunks_);
    tgtImage.MergeAdjacentNormalChunks();
    srcImage.MergeAdjacentNormalChunks();
    PairedCounts(codec, tfile, tgtImage.chunks_, sfile, srcImage.chunks_);
    if |tgtImage.chunks_| != |srcImage.chunks_| { return false; }
    return true;
  }

  /** Every pair of chunks is processed in turn. */
  method ProcessPairs(tgtImage: Image, srcImage: Image)
    requires tgtImage != srcImage && tgtImage.codec == srcImage.codec && |tgtImage.chunks_| == |srcImage.chunks_|
    requires Paired(tgtImage.codec, tgtImage.fileContent, tgtImage.chunks_,
                    srcImage.fileContent, srcImage.chunks_, 0)
    modifies tgtImage`chunks_, srcImage`chunks_
    ensures Paired(tgtImage.codec, tgtImage.fileContent, tgtImage.chunks_,
                   srcImage.fileContent, srcImage.chunks_, |tgtImage.chunks_|)
    ensures var chosen := ChooseAll(tgtImage.codec, tgtImage.fileContent, old(tgtImage.chunks_),
                                    srcImage.fileContent, old(srcImage.chunks_));
            tgtImage.chunks_ == chosen && srcImage.chunks_ == FollowAll(chosen, old(srcImage.chunks_))
  {
    hide Chosen, ChooseAll, FollowAll, Choose, Paired;
    ghost var codec, tfile, sfile := tgtImage.codec, tgtImage.fileContent, srcImage.fileContent;
    ghost var tcs0, scs0 := tgtImage.chunks_, srcImage.chunks_;
    ChosenStarts(codec, tfile, tcs0, sfile, scs0);
    var i := 0;
    while i < |tgtImage.chunks_|
      invariant 0 <= i <= |tgtImage.chunks_|
      invariant Paired(codec, tfile, tgtImage.chunks_, sfile, srcImage.chunks_, i)
      invariant |tgtImage.chunks_| == |srcImage.chunks_|
      invariant Chosen(codec, tfile, tcs0, tgtImage.chunks_, sfile, scs0, srcImage.chunks_, i)
    {
      ChosenStep(codec, tfile, tcs0, tgtImage.chunks_, sfile, scs0, srcImage.chunks_, i);
      ProcessPair(tgtImage, srcImage, i);
      i := i + 1;
    }
    ChosenEnds(codec, tfile, tcs0, tgtImage.chunks_, sfile, scs0, srcImage.chunks_);
  }

  /** The chunks of the two images once they have been compared, processed and merged. */
  datatype Images = Images(tgt: seq<ImageChunk>, src: seq<ImageChunk>)

  /** None if the two files do not have the same structure. */
  function Processed(codec: Codec, tfile: seq<byte>, sfile: seq<byte>): Option<Images> {
    var tcs, scs := Compact(Scan(codec, tfile, 0)), Compact(Scan(codec, sfile, 0));
    if Types(tcs) != Types(scs) then None
    else
      assert |Types(tcs)| == |Types(scs)|;
      var chosen := ChooseAll(codec, tfile, tcs, sfile, scs);
      Some(Images(Compact(chosen), Compact(FollowAll(chosen, scs))))
  }

  lemma PairedStarts(codec: Codec, tfile: seq<byte>, tcs: seq<ImageChunk>, sfile: seq<byte>, scs: seq<ImageChunk>)
    requires WellChunked(codec, tfile, tcs) && WellChunked(codec, sfile, scs) && Types(tcs) == Types(scs)
    ensures Paired(codec, tfile, tcs, sfile, scs, 0)
  {
  }

  lemma PairedCounts(codec: Codec, tfile: seq<byte>, tcs: seq<ImageChunk>, sfile: seq<byte>, scs: seq<ImageChunk>)
    requires Paired(codec, tfile, tcs, sfile, scs, |tcs|)
    ensures |tcs| == |scs|
  {
    assert |Types(tcs)| == |Types(scs)|;
  }

  method ProcessPair(tgtImage: Image, srcImage: Image, i: nat)
    requires tgtImage != srcImage && tgtImage.codec == srcImage.codec && i < |tgtImage.chunks_| == |srcImage.chunks_|
    requires Paired(tgtImage.codec, tgtImage.fileContent, tgtImage.chunks_, srcImage.fileContent, srcImage.chunks_, i)
    modifies tgtImage`chunks_, srcImage`chunks_
    ensures Paired(tgtImage.codec, tgtImage.fileContent, tgtImage.chunks_, srcImage.fileContent, srcImage.chunks_,
            i + 1)
    ensures tgtImage.chunks_ == old(tgtImage.chunks_)[i := Choose(tgtImage.codec, tgtImage.fileContent,
              old(tgtImage.chunks_[i]), srcImage.fileContent, old(srcImage.chunks_[i]))]
    ensures srcImage.chunks_ == old(srcImage.chunks_)[i := Follow(tgtImage.chunks_[i], old(srcImage.chunks_[i]))]
  {
    hide Paired, RawData;
    var codec, tfile, sfile := tgtImage.codec, tgtImage.fileContent, srcImage.fileContent;
    var tcs, scs := tgtImage.chunks_, srcImage.chunks_;
    PairedAt(codec, tfile, tcs, sfile, scs, i);
    var c, d := tcs[i], scs[i];
    if c.kind.Deflate? {
      if SameChunk(c, tfile, d, sfile) {
        // Identical deflate chunks are treated as normal chunks.
        c, d := ToNormal(c), ToNormal(d);
      } else {
        var ok, level := ReconstructDeflateChunk(codec, tfile, c);
        if ok {
          c := c.(level := level);
        } else {
          c, d := ToNormal(c), ToNormal(d);
        }
      }
    }
    PairNext(codec, tfile, tcs, sfile, scs, i, c, d);
    tgtImage.chunks_ := tcs[i := c];
    srcImage.chunks_ := scs[i := d];
  }
}
