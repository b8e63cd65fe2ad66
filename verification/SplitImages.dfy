/** Splitting a large zip into pieces: each piece has some target chunks and the source blocks they
    are patched from, at most about `limit` bytes of them. */
module SplitImages {
  import opened Basics
  import opened RangeSets
  import opened ImageChunks

  /** A zip file as chunks.  The last source chunk is the central directory. */
  datatype Zip = Zip(file: seq<byte>, chunks: seq<ImageChunk>, limit: nat)

  /** A packed piece of the source and the deflate chunks that lie in it. */
  datatype SourceImage = SourceImage(chunks: seq<ImageChunk>, content: seq<byte>)

  // ---------- alignment ----------

  function AlignUp(x: nat): nat {
    if x % BLOCK_SIZE == 0 then x else x + (BLOCK_SIZE - x % BLOCK_SIZE)
  }

  lemma AlignUpMeaning(x: nat, y: nat)
    ensures AlignUp(x) % BLOCK_SIZE == 0 && x <= AlignUp(x) < x + BLOCK_SIZE
    ensures x <= y <= AlignUp(x) ==> AlignUp(y) == AlignUp(x)
    ensures x <= y ==> AlignUp(x) <= AlignUp(y)
  {
    var q, r := x / BLOCK_SIZE, x % BLOCK_SIZE;
    assert x == q * BLOCK_SIZE + r;
    assert AlignUp(x) == (if r == 0 then q else q + 1) * BLOCK_SIZE;
    var q', r' := y / BLOCK_SIZE, y % BLOCK_SIZE;
    assert y == q' * BLOCK_SIZE + r';
    assert AlignUp(y) == (if r' == 0 then q' else q' + 1) * BLOCK_SIZE;
  }

  /** Trim the beginning to a block boundary; fails when nothing is left. */
  method AlignHead(start0: nat, length0: nat) returns (ok: bool, start: nat, length: nat)
    ensures ok <==> AlignUp(start0) < start0 + length0
    ensures ok ==> start == AlignUp(start0) && start + length == start0 + length0
    ensures !ok ==> start == start0 && length == 0
  {
    var residual := if start0 % BLOCK_SIZE == 0 then 0 else BLOCK_SIZE - start0 % BLOCK_SIZE;
    if length0 <= residual { return false, start0, 0; }
    return true, start0 + residual, length0 - residual;
  }

  /** Trim the end to a block boundary; fails when nothing is left. */
  method AlignTail(start: nat, length0: nat) returns (ok: bool, length: nat)
    ensures ok ==> 0 < length <= length0 && (start + length) % BLOCK_SIZE == 0
    ensures ok <==> length0 > (start + length0) % BLOCK_SIZE
    ensures !ok ==> length == 0
  {
    var residual := (start + length0) % BLOCK_SIZE;
    if length0 <= residual { return false, 0; }
    return true, length0 - residual;
  }

  ghost predicate InRange(r: Range, b: nat) {
    r.first <= b < r.second
  }

  /** None of the blocks of the byte interval is in the list. */
  ghost predicate Free(used: seq<Range>, start: nat, length: nat) {
    forall b: nat :: Covers(used, b) ==> !InRange(ByteRange(start, length), b)
  }

  method RemoveUsedBlocks(start0: nat, length0: nat, used: RangeSet) returns (ok: bool, start: nat, length: nat)
    requires used.Valid() && 0 < length0
    ensures ok ==>
              0 < length && start0 <= start && start + length <= start0 + length0 && Free(used.ranges_, start, length)
    ensures Free(used.ranges_, start0, length0) ==> ok && start == start0 && length == length0
  {
    start, length := start0, length0;
    var overlap := used.OverlapsBytes(start, length);
    if !overlap { return true, start, length; }
    AlignUpMeaning(start0, start0);
    ok, start, length := AlignHead(start, length);
    if ok {
      overlap := used.OverlapsBytes(start, length);
      if !overlap { return true, start, length; }
    }
    ok, length := AlignTail(start, length);
    if ok {
      overlap := used.OverlapsBytes(start, length);
      if !overlap { return true, start, length; }
    }
    return false, start, length;
  }

  // ---------- the target side ----------

  /** The pieces are contiguous from the start of the file to `to`, and each begins at a block. */
  ghost predicate PiecesCover(images: seq<seq<ImageChunk>>, to: nat) {
    if images == [] then to == 0
    else
      var last := images[|images| - 1];
      && last != [] && last[0].start % BLOCK_SIZE == 0 && Tiles(last, last[0].start, to)
      && PiecesCover(images[..|images| - 1], last[0].start)
  }

  ghost predicate Positive(cs: seq<ImageChunk>) {
    forall i :: 0 <= i < |cs| ==> cs[i].len > 0
  }

  /** The deflate chunks of b are chunks of a. */
  ghost predicate DeflatesFrom(b: seq<ImageChunk>, a: seq<ImageChunk>) {
    forall c :: c in b && c.kind.Deflate? ==> c in a
  }

  ghost predicate AllNormalOrDeflate(cs: seq<ImageChunk>) {
    forall c :: c in cs ==> !c.kind.Raw?
  }

  lemma {:induction false} CompactDeflatesFrom(cs: seq<ImageChunk>)
    ensures DeflatesFrom(Compact(cs), cs)
    ensures AllNormalOrDeflate(cs) ==> AllNormalOrDeflate(Compact(cs))
  {
    CompactKeepsDeflates(cs);
    var r := Compact(cs);
    forall c | c in r && c.kind.Deflate? ensures c in cs {
      DeflatesIn(r, c);
      DeflatesIn(cs, c);
    }
    if AllNormalOrDeflate(cs) {
      forall c | c in r ensures !c.kind.Raw? {
        var i :| 0 <= i < |r| && r[i] == c;
        CompactTypesIn(cs, i);
        var j :| 0 <= j < |cs| && SameKind(cs[j], r[i]);
        assert cs[j] in cs;
      }
    }
  }

  lemma TilesSuffix(cs: seq<ImageChunk>, from: nat, to: nat, i: nat)
    requires Tiles(cs, from, to) && i < |cs|
    ensures Tiles(cs[i + 1..], End(cs[i]), to) && (i + 1 < |cs| ==> cs[i + 1].start == End(cs[i]))
  {
  }

  lemma CompactNotEmpty(cs: seq<ImageChunk>)
    requires cs != []
    ensures Compact(cs) != []
  {
    CompactHead(cs);
  }

  /** The target chunks of a piece, cut at the first block boundary and filled up to the last.
      Nothing is left exactly when they end before the boundary. */
  method AlignTargets(size: nat, chunks: seq<ImageChunk>, ghost from: nat, ghost to: nat)
    returns (added: bool, image: seq<ImageChunk>)
    requires chunks != [] && Tiles(chunks, from, to) && Positive(chunks) && to <= size && AllNormalOrDeflate(chunks)
    ensures added <==> AlignUp(from) < to
    ensures added ==> image != [] && Tiles(image, AlignUp(from), Min(size, AlignUp(to))) && DeflatesFrom(image, chunks)
    ensures added ==> AllNormalOrDeflate(image) && KeepsAfter(chunks, image, AlignUp(from))
  {
    hide Tiles, Compact;
    var i := 0;
    image := [];
    TilesStart(chunks, from, to);
    AlignUpMeaning(from, from);
    while i < |chunks|
      invariant 0 <= i <= |chunks| && image == []
      invariant from <= (if i < |chunks| then chunks[i].start else to) <= AlignUp(from)
      invariant forall j :: 0 <= j < i ==> chunks[j].start <= AlignUp(from)
      decreases |chunks| - i
    {
      TilesSuffix(chunks, from, to, i);
      TilesAt(chunks, from, to, i);
      AlignUpMeaning(from, chunks[i].start);
      var ok, tgtStart, tgtLength := AlignHead(chunks[i].start, chunks[i].len);
      if ok {
        image := [NormalChunk(tgtStart, tgtLength)];
        break;
      }
      i := i + 1;
    }
    if i == |chunks| { return false, []; }
    TilesBounds(chunks, from, to, i);
    image := JoinRest(image[0], chunks, i, to, size);
    RestKept(chunks, image, i, AlignUp(from));
    added := true;
  }

  /** The deflate chunks after a position are kept. */
  ghost predicate KeepsAfter(chunks: seq<ImageChunk>, image: seq<ImageChunk>, at: nat) {
    forall c :: c in chunks && c.kind.Deflate? && at < c.start ==> c in image
  }

  lemma RestKept(chunks: seq<ImageChunk>, image: seq<ImageChunk>, i: nat, at: nat)
    requires i < |chunks| && DeflatesFrom(chunks[i + 1..], image) && forall j :: 0 <= j <= i ==> chunks[j].start <= at
    ensures KeepsAfter(chunks, image, at)
  {
    forall c | c in chunks && c.kind.Deflate? && at < c.start ensures c in image {
      var j :| 0 <= j < |chunks| && chunks[j] == c;
      assert chunks[i + 1..][j - (i + 1)] == c;
    }
  }

  lemma CompactKeepsAll(cs: seq<ImageChunk>)
    ensures DeflatesFrom(cs, Compact(cs))
  {
    CompactKeepsDeflates(cs);
    forall c | c in cs && c.kind.Deflate? ensures c in Compact(cs) {
      DeflatesIn(cs, c);
      DeflatesIn(Compact(cs), c);
    }
  }

  lemma TilesStart(cs: seq<ImageChunk>, from: nat, to: nat)
    requires Tiles(cs, from, to) && cs != []
    ensures cs[0].start == from
  {
  }

  lemma TilesAt(cs: seq<ImageChunk>, from: nat, to: nat, i: nat)
    requires Tiles(cs, from, to) && i < |cs|
    ensures i == |cs| - 1 ==> End(cs[i]) == to
  {
  }

  lemma TilesSingle(c: ImageChunk)
    ensures Tiles([c], c.start, End(c))
  {
  }

  lemma TilesLast(cs: seq<ImageChunk>, from: nat, to: nat)
    requires Tiles(cs, from, to) && cs != []
    ensures End(cs[|cs| - 1]) == to
  {
  }

  /** The rest of the chunks after the trimmed one, and a chunk for the rest of the last block. */
  method JoinRest(first: ImageChunk, chunks: seq<ImageChunk>, i: nat, ghost to: nat, size: nat)
    returns (image: seq<ImageChunk>)
    requires i < |chunks| && Tiles(chunks[i + 1..], End(first), to) && to <= size && first.kind.Normal?
             && AllNormalOrDeflate(chunks)
    ensures image != [] && Tiles(image, first.start, Min(size, AlignUp(to))) && DeflatesFrom(image, chunks)
            && AllNormalOrDeflate(image) && DeflatesFrom(chunks[i + 1..], image)
  {
    hide Tiles, Compact;
    TilesSingle(first);
    TilesAppend([first], chunks[i + 1..], first.start, End(first), to);
    image := [first] + chunks[i + 1..];
    TilesLast(image, first.start, to);
    AlignUpMeaning(to, to);
    var endOffset := image[|image| - 1].start + image[|image| - 1].len;
    if endOffset % BLOCK_SIZE != 0 && endOffset < size {
      var tail := NormalChunk(endOffset, Min(size - endOffset, BLOCK_SIZE - endOffset % BLOCK_SIZE));
      TilesSnoc(image, tail, first.start);
      image := image + [tail];
    }
    CompactTiles(image, first.start, Min(size, AlignUp(to)));
    CompactDeflatesFrom(image);
    CompactKeepsAll(image);
    CompactNotEmpty(image);
    image := Compact(image);
  }

  // ---------- the source side ----------

  ghost predicate DisjointRanges(a: seq<Range>, b: seq<Range>) {
    forall x: nat :: !(Covers(a, x) && Covers(b, x))
  }

  /** Every covered block has a byte of the file. */
  ghost predicate InFile(rs: seq<Range>, size: nat) {
    forall b: nat :: Covers(rs, b) ==> b * BLOCK_SIZE < size
  }

  ghost predicate CoversChunk(rs: seq<Range>, c: ImageChunk) {
    forall b :: c.start / BLOCK_SIZE <= b <= (c.start + c.len - 1) / BLOCK_SIZE ==> Covers(rs, b)
  }

  /** The chunks are deflate chunks of the source and lie in the listed blocks. */
  ghost predicate Housed(cs: seq<ImageChunk>, rs: seq<Range>, src: Zip) {
    forall c :: c in cs ==>
      c in src.chunks && c.kind.Deflate? && 0 < c.len && End(c) <= |src.file| && CoversChunk(rs, c)
  }

  /** Source blocks already given to earlier pieces, with those of the central directory. */
  ghost predicate UsedExactly(used: seq<Range>, cd: Range, ranges: seq<seq<Range>>) {
    forall b: nat :: Covers(used, b) <==> InRange(cd, b) || CoversSome(ranges, b)
  }

  ghost predicate CoversSome(ranges: seq<seq<Range>>, b: nat) {
    exists k :: 0 <= k < |ranges| && Covers(ranges[k], b)
  }

  ghost predicate PairwiseApart(ranges: seq<seq<Range>>) {
    forall j, k :: 0 <= j < k < |ranges| ==> DisjointRanges(ranges[j], ranges[k])
  }

  ghost predicate WithinLimit(rs: seq<Range>, limit: nat) {
    Total(rs) * BLOCK_SIZE <= limit + BLOCK_SIZE
  }

  function CentralDirectory(src: Zip): ImageChunk
    requires src.chunks != []
  {
    src.chunks[|src.chunks| - 1]
  }

  function ChunkBlocks(c: ImageChunk): Range {
    ByteRange(c.start, c.len)
  }

  // ---------- names ----------

  predicate NameMatches(c: ImageChunk, name: string, findNormal: bool) {
    (c.kind.Deflate? || findNormal) && (c.name == name || name == c.name + "-0" || c.name == name + "-0")
  }

  /** Names match if they are equal, or equal but for the "-0" of the first part of a split entry. */
  lemma NamesThatMatch(c: ImageChunk, name: string)
    requires c.kind.Deflate?
    ensures c.name == name ==> NameMatches(c, name, false)
    ensures c.name == "a" ==>
              NameMatches(c, "a-0", false) && !NameMatches(c, "a-1", false) && !NameMatches(c, "b", false)
    ensures c.name == "a-0" ==> NameMatches(c, "a", false) && !NameMatches(c, "a-1", false)
    ensures NameMatches(c.(kind := Normal), name, true) <==> NameMatches(c, name, false)
    ensures !NameMatches(c.(kind := Normal), name, false)
  {
    assert |"a-1"| == 3 && "a-1"[2] == '1' && "a-0"[2] == '0';
    assert |c.name + "-0"| == |c.name| + 2 && |"a-1" + "-0"| == 5;
  }

  /** The first chunk with the name; an entry split for its size is matched by its first part. */
  method FindChunkByName(chunks: seq<ImageChunk>, name: string, findNormal: bool) returns (r: Option<nat>)
    ensures r.Some? ==> name != "" && r.value < |chunks| && NameMatches(chunks[r.value], name, findNormal)
    ensures r.Some? ==> forall j :: 0 <= j < r.value ==> !NameMatches(chunks[j], name, findNormal)
    ensures r.None? ==> name == "" || forall j :: 0 <= j < |chunks| ==> !NameMatches(chunks[j], name, findNormal)
  {
    if name == "" { return None; }
    var i := 0;
    while i < |chunks|
      invariant 0 <= i <= |chunks| && forall j :: 0 <= j < i ==> !NameMatches(chunks[j], name, findNormal)
    {
      if NameMatches(chunks[i], name, findNormal) { return Some(i); }
      i := i + 1;
    }
    return None;
  }

  // ---------- what the two zips must be ----------

  ghost predicate TargetOk(tgt: Zip) {
    tgt.chunks != [] && Tiles(tgt.chunks, 0, |tgt.file|) && Positive(tgt.chunks) && AllNormalOrDeflate(tgt.chunks)
  }

  ghost predicate SourceOk(src: Zip) {
    && src.chunks != [] && |src.file| <= SIZE_MAX && 0 < src.limit && src.limit % BLOCK_SIZE == 0
    && CentralDirectory(src).kind.Normal? && 0 < CentralDirectory(src).len
    && forall c :: c in src.chunks ==> End(c) <= |src.file|
  }

  /** No source chunk that a target chunk is matched with is empty or exceeds the limit. */
  ghost predicate MatchesFit(tgt: Zip, src: Zip) {
    forall t, c :: t in tgt.chunks && t.name != "" && c in src.chunks && NameMatches(c, t.name, true) ==>
      0 < c.len <= src.limit
  }

  // ---------- the state of the split ----------

  /** Between two target chunks: `from` is where the chunks collected for the current piece begin. */
  datatype Work = Work(i: nat, from: nat,
                       used: seq<Range>, srcRanges: seq<Range>, srcChunks: seq<ImageChunk>, tgtChunks: seq<ImageChunk>,
                       tgts: seq<seq<ImageChunk>>, srcs: seq<SourceImage>, ranges: seq<seq<Range>>)

  function Pos(tgt: Zip, i: nat): nat {
    if i < |tgt.chunks| then tgt.chunks[i].start else |tgt.file|
  }

  /** A deflate target chunk of a piece has a deflate source chunk of a matching name in the piece. */
  ghost predicate Served(cs: seq<ImageChunk>, sources: seq<ImageChunk>) {
    forall c :: c in cs && c.kind.Deflate? ==> c.name != "" && exists d :: d in sources && NameMatches(d, c.name, false)
  }

  ghost predicate ServedFrom(cs: seq<ImageChunk>, all: seq<ImageChunk>, sources: seq<ImageChunk>) {
    DeflatesFrom(cs, all) && Served(cs, sources) && AllNormalOrDeflate(cs)
  }

  ghost predicate TargetSide(tgt: Zip, w: Work) {
    && w.i <= |tgt.chunks| && w.from <= Pos(tgt, w.i) <= |tgt.file|
    && Tiles(w.tgtChunks, w.from, Pos(tgt, w.i)) && Positive(w.tgtChunks)
    && ServedFrom(w.tgtChunks, tgt.chunks, w.srcChunks)
    && PiecesCover(w.tgts, Min(|tgt.file|, AlignUp(w.from)))
  }

  ghost predicate SourceSide(src: Zip, w: Work) {
    && src.chunks != []
    && Canonical(w.used) && Canonical(w.srcRanges)
    && UsedExactly(w.used, ChunkBlocks(CentralDirectory(src)), w.ranges)
    && DisjointRanges(w.srcRanges, w.used) && InFile(w.srcRanges, |src.file|)
    && WithinLimit(w.srcRanges, src.limit) && Housed(w.srcChunks, w.srcRanges, src)
    && (w.srcRanges != [] ==> w.tgtChunks != []) && (w.srcRanges == [] ==> w.srcChunks == [])
  }

  /** A finished piece. */
  ghost predicate PieceOk(tgt: Zip, src: Zip, image: seq<ImageChunk>, source: SourceImage, rs: seq<Range>) {
    && ServedFrom(image, tgt.chunks, source.chunks) && Housed(source.chunks, rs, src)
    && Canonical(rs) && rs != [] && InFile(rs, |src.file|) && Packable(src.file, rs)
    && source.content == Pack(src.file, rs) && source.content != []
  }

  ghost predicate PiecesOk(tgt: Zip, src: Zip, w: Work) {
    && |w.tgts| == |w.srcs| == |w.ranges| && PairwiseApart(w.ranges) && src.chunks != []
    && (forall b: nat :: CoversSome(w.ranges, b) ==> !InRange(ChunkBlocks(CentralDirectory(src)), b))
    && (forall k :: 0 <= k < |w.ranges| ==> PieceOk(tgt, src, w.tgts[k], w.srcs[k], w.ranges[k]))
    && (forall k :: 0 <= k < |w.ranges| ==> WithinLimit(w.ranges[k], src.limit))
  }

  ghost predicate Working(tgt: Zip, src: Zip, w: Work) {
    TargetSide(tgt, w) && SourceSide(src, w) && PiecesOk(tgt, src, w)
  }

  // ---------- a target chunk that goes in as a normal chunk ----------

  lemma NextPos(tgt: Zip, i: nat)
    requires TargetOk(tgt) && i < |tgt.chunks|
    ensures End(tgt.chunks[i]) == Pos(tgt, i + 1) <= |tgt.file| && tgt.chunks[i].len > 0
    ensures Pos(tgt, i) == tgt.chunks[i].start
  {
    TilesBounds(tgt.chunks, 0, |tgt.file|, i);
  }

  lemma TargetGrows(tgt: Zip, w: Work, c: ImageChunk, srcChunks: seq<ImageChunk>)
    requires TargetOk(tgt) && TargetSide(tgt, w) && w.i < |tgt.chunks|
    requires c.start == tgt.chunks[w.i].start && c.len == tgt.chunks[w.i].len && !c.kind.Raw?
    requires forall d :: d in w.srcChunks ==> d in srcChunks
    requires c.kind.Deflate? ==>
               c == tgt.chunks[w.i] && c.name != "" && exists d :: d in srcChunks && NameMatches(d, c.name, false)
    ensures TargetSide(tgt, w.(i := w.i + 1, tgtChunks := w.tgtChunks + [c], srcChunks := srcChunks))
  {
    hide Tiles, PiecesCover;
    NextPos(tgt, w.i);
    TilesSnoc(w.tgtChunks, c, w.from);
    ServedGrows(w.tgtChunks, tgt.chunks, w.srcChunks, c, srcChunks);
  }

  lemma ServedGrows(cs: seq<ImageChunk>, all: seq<ImageChunk>, sources: seq<ImageChunk>, c: ImageChunk,
                    sources': seq<ImageChunk>)
    requires ServedFrom(cs, all, sources) && !c.kind.Raw?
    requires forall d :: d in sources ==> d in sources'
    requires c.kind.Deflate? ==> c in all && c.name != "" && exists d :: d in sources' && NameMatches(d, c.name, false)
    ensures ServedFrom(cs + [c], all, sources')
  {
    hide NameMatches;
    forall e | e in cs + [c] && e.kind.Deflate?
      ensures e.name != "" && exists d :: d in sources' && NameMatches(d, e.name, false) {
      if e in cs {
        var d :| d in sources && NameMatches(d, e.name, false);
        assert d in sources';
      }
    }
  }

  // ---------- inserting a source chunk ----------

  lemma BlockCount(start: nat, len: nat)
    requires 0 < len && start + len <= SIZE_MAX
    ensures Length(ByteRange(start, len)) * BLOCK_SIZE <= len + 2 * BLOCK_SIZE - 2
    ensures forall b: nat :: InRange(ByteRange(start, len), b) ==> b * BLOCK_SIZE < start + len
    ensures ByteRange(start, len).first == start / BLOCK_SIZE
    ensures ByteRange(start, len).second == (start + len - 1) / BLOCK_SIZE + 1
  {
    var last := start + len - 1;
    assert last % (SIZE_MAX + 1) == last;
  }

  lemma LimitAfterInsert(oldBlocks: nat, added: nat, blocks: nat, len: nat, limit: nat)
    requires limit % BLOCK_SIZE == 0 && oldBlocks * BLOCK_SIZE + len <= limit
    requires added * BLOCK_SIZE <= len + 2 * BLOCK_SIZE - 2 && blocks <= oldBlocks + added
    ensures blocks * BLOCK_SIZE <= limit + BLOCK_SIZE
  {
    var q := limit / BLOCK_SIZE;
    assert limit == q * BLOCK_SIZE;
    assert (oldBlocks + added) * BLOCK_SIZE < (q + 2) * BLOCK_SIZE;
    assert oldBlocks + added < q + 2;
  }

  lemma UnionCount(before: seq<Range>, after: seq<Range>, r: Range)
    requires Canonical(before) && Canonical(after)
    requires forall b: nat :: Covers(after, b) <==> Covers(before, b) || InRange(r, b)
    ensures Total(after) <= Total(before) + Length(r)
  {
    CanonicalCardinality(before);
    CanonicalCardinality(after);
    var extra := set b: nat | b in Interval(r);
    IntervalCount(r);
    assert BlockSet(after) <= BlockSet(before) + extra by {
      forall b | b in BlockSet(after) ensures b in BlockSet(before) + extra {
        ExpandCovers(after, b);
        ExpandCovers(before, b);
        if InRange(r, b) { assert Interval(r)[b - r.first] == b; }
      }
    }
    SubsetCount(BlockSet(after), BlockSet(before) + extra);
    assert |BlockSet(before) + extra| <= |BlockSet(before)| + |extra|;
  }

  lemma {:induction false} SubsetCount(a: set<nat>, b: set<nat>)
    requires a <= b
    ensures |a| <= |b|
    decreases |a|
  {
    if a != {} {
      var x :| x in a;
      SubsetCount(a - {x}, b - {x});
    }
  }

  lemma IntervalCount(r: Range)
    ensures |(set b: nat | b in Interval(r))| <= Length(r)
  {
    SeqCount(Interval(r));
  }

  lemma {:induction false} SeqCount(s: seq<nat>)
    ensures |(set b: nat | b in s)| <= |s|
  {
    if s != [] {
      SeqCount(s[1..]);
      assert (set b: nat | b in s) == {s[0]} + (set b: nat | b in s[1..]);
    }
  }

  /** Inserting free blocks of a chunk, and the chunk itself if it is whole. */
  lemma SourceGrows(src: Zip, w: Work, start: nat, len: nat, rs: seq<Range>, srcChunks: seq<ImageChunk>, c: ImageChunk,
                    tgtChunks: seq<ImageChunk>)
    requires SourceOk(src) && SourceSide(src, w) && 0 < len && start + len <= |src.file|
    requires tgtChunks != [] && Free(w.used, start, len) && Total(w.srcRanges) * BLOCK_SIZE + len <= src.limit
    requires Canonical(rs) && forall b: nat :: Covers(rs, b) <==>
               Covers(w.srcRanges, b) || InRange(ByteRange(start, len), b)
    requires srcChunks == w.srcChunks
             || (c in src.chunks && c.kind.Deflate? && c.start == start && c.len == len
               && srcChunks == w.srcChunks + [c])
    ensures SourceSide(src, w.(i := w.i + 1, srcRanges := rs, srcChunks := srcChunks, tgtChunks := tgtChunks))
    ensures rs != []
  {
    hide Total, ByteRange, Canonical, UsedExactly;
    BlockCount(start, len);
    UnionCount(w.srcRanges, rs, ByteRange(start, len));
    LimitAfterInsert(Total(w.srcRanges), Length(ByteRange(start, len)), Total(rs), len, src.limit);
    assert InFile(rs, |src.file|) by { FileBlocks(w.srcRanges, rs, start, len, |src.file|); }
    HousedGrows(w.srcChunks, w.srcRanges, rs, src);
    assert start / BLOCK_SIZE <= (start + len - 1) / BLOCK_SIZE;
    assert InRange(ByteRange(start, len), start / BLOCK_SIZE);
    assert Covers(rs, start / BLOCK_SIZE);
    if srcChunks != w.srcChunks {
      assert CoversChunk(rs, c) by { ChunkCovered(rs, c); }
    }
  }

  lemma ChunkCovered(rs: seq<Range>, c: ImageChunk)
    requires 0 < c.len && End(c) <= SIZE_MAX
    requires forall b: nat :: InRange(ByteRange(c.start, c.len), b) ==> Covers(rs, b)
    ensures CoversChunk(rs, c)
  {
    BlockCount(c.start, c.len);
    forall b | c.start / BLOCK_SIZE <= b <= (c.start + c.len - 1) / BLOCK_SIZE ensures Covers(rs, b) {
      assert InRange(ByteRange(c.start, c.len), b);
    }
  }

  lemma FileBlocks(before: seq<Range>, after: seq<Range>, start: nat, len: nat, size: nat)
    requires InFile(before, size) && 0 < len && start + len <= size <= SIZE_MAX
    requires forall b: nat :: Covers(after, b) <==> Covers(before, b) || InRange(ByteRange(start, len), b)
    ensures InFile(after, size)
  {
    hide Covers, ByteRange;
    BlockCount(start, len);
  }

  lemma HousedGrows(cs: seq<ImageChunk>, before: seq<Range>, after: seq<Range>, src: Zip)
    requires Housed(cs, before, src) && forall b: nat :: Covers(before, b) ==> Covers(after, b)
    ensures Housed(cs, after, src)
  {
    hide Covers;
    forall c | c in cs ensures CoversChunk(after, c) {
      assert CoversChunk(before, c);
    }
  }

  // ---------- closing a piece ----------

  /** The packed content of the source blocks. */
  method PackSource(file: seq<byte>, rs: seq<Range>) returns (content: seq<byte>)
    requires Packable(file, rs)
    ensures content == Pack(file, rs)
  {
    content := [];
    var i := 0;
    PackFrom(file, rs, 0);
    while i < |rs|
      invariant 0 <= i <= |rs| && Packable(file, rs[i..]) && content + Pack(file, rs[i..]) == Pack(file, rs)
    {
      PackFrom(file, rs, i);
      ghost var rest := rs[i..];
      assert rest[0] == rs[i] && rest[1..] == rs[i + 1..];
      ghost var piece := PackOne(file, rs[i]);
      assert Pack(file, rest) == piece + Pack(file, rest[1..]);
      assert content + (piece + Pack(file, rs[i + 1..])) == content + piece + Pack(file, rs[i + 1..]);
      var end := Min(|file|, rs[i].second * BLOCK_SIZE);
      content := content + file[rs[i].first * BLOCK_SIZE..end];
      i := i + 1;
    }
    assert rs[i..] == [];
    assert content + [] == content;
  }

  lemma PackFrom(file: seq<byte>, rs: seq<Range>, i: nat)
    requires Packable(file, rs) && i <= |rs|
    ensures Packable(file, rs[i..]) && (i < |rs| ==> Packable(file, rs[i + 1..]))
    ensures [] + Pack(file, rs[0..]) == Pack(file, rs)
  {
    assert rs[0..] == rs;
    assert [] + Pack(file, rs) == Pack(file, rs);
  }

  /** Blocks of the file can be packed, and there is something to pack. */
  lemma BlocksPack(file: seq<byte>, rs: seq<Range>)
    requires Canonical(rs) && rs != [] && InFile(rs, |file|)
    ensures Packable(file, rs) && Pack(file, rs) != []
  {
    forall i | 0 <= i < |rs| ensures rs[i].first * BLOCK_SIZE < |file| {
      assert Covers(rs, rs[i].first);
    }
    assert rs[0].first < rs[0].second;
    assert PackOne(file, rs[0]) != [];
  }

  /** AddSplitImageFromChunkList: a new piece, unless alignment leaves nothing of its target. */
  method AddSplitImage(tgt: Zip, src: Zip, ghost w: Work, srcRanges: seq<Range>, tgtChunks: seq<ImageChunk>,
                       srcChunks: seq<ImageChunk>)
    returns (added: bool, image: seq<ImageChunk>, source: SourceImage)
    requires TargetOk(tgt) && TargetSide(tgt, w) && w.tgtChunks == tgtChunks != [] && w.srcChunks == srcChunks
    requires Canonical(srcRanges) && srcRanges != [] && InFile(srcRanges, |src.file|)
             && Housed(srcChunks, srcRanges, src)
    ensures added <==> AlignUp(w.from) < Pos(tgt, w.i)
    ensures added ==> PieceOk(tgt, src, image, source, srcRanges) && image != []
    ensures added ==> source.chunks == srcChunks && KeepsAfter(tgtChunks, image, AlignUp(w.from))
    ensures added ==> Tiles(image, AlignUp(w.from), Min(|tgt.file|, AlignUp(Pos(tgt, w.i))))
  {
    hide Tiles, KeepsAfter, PiecesCover, Canonical, InFile, Housed, Positive, Served;
    source := SourceImage([], []);
    added, image := AlignTargets(|tgt.file|, tgtChunks, w.from, Pos(tgt, w.i));
    if !added { return; }
    BlocksPack(src.file, srcRanges);
    var content := PackSource(src.file, srcRanges);
    source := SourceImage(srcChunks, content);
    ServedSubset(image, tgtChunks, tgt.chunks, srcChunks);
  }

  lemma ServedSubset(image: seq<ImageChunk>, cs: seq<ImageChunk>, all: seq<ImageChunk>, sources: seq<ImageChunk>)
    requires DeflatesFrom(image, cs) && AllNormalOrDeflate(image) && ServedFrom(cs, all, sources)
    ensures ServedFrom(image, all, sources)
  {
  }

  lemma CoverGrows(images: seq<seq<ImageChunk>>, image: seq<ImageChunk>, from: nat, to: nat)
    requires PiecesCover(images, from) && image != [] && from % BLOCK_SIZE == 0 && Tiles(image, from, to)
    ensures PiecesCover(images + [image], to)
  {
    var r := images + [image];
    assert r[..|r| - 1] == images;
  }

  /** After a piece has been added, or found empty, the collecting starts afresh. */
  lemma TargetCloses(tgt: Zip, w: Work, added: bool, image: seq<ImageChunk>)
    requires TargetOk(tgt) && TargetSide(tgt, w)
    requires added <==> AlignUp(w.from) < Pos(tgt, w.i)
    requires added ==> image != [] && Tiles(image, AlignUp(w.from), Min(|tgt.file|, AlignUp(Pos(tgt, w.i))))
    ensures TargetSide(tgt, w.(from := Pos(tgt, w.i), srcRanges := [], srcChunks := [], tgtChunks := [],
                                tgts := if added then w.tgts + [image] else w.tgts))
  {
    hide PiecesCover;
    AlignUpMeaning(w.from, Pos(tgt, w.i));
    if added {
      CoverGrows(w.tgts, image, AlignUp(w.from), Min(|tgt.file|, AlignUp(Pos(tgt, w.i))));
    }
  }

  lemma SourceCloses(src: Zip, w: Work, added: bool, used: seq<Range>)
    requires SourceSide(src, w) && Canonical(used)
    requires if added then forall b: nat :: Covers(used, b) <==>
               Covers(w.used, b) || Covers(w.srcRanges, b) else used == w.used
    ensures SourceSide(src, w.(used := used, srcRanges := [], srcChunks := [], tgtChunks := [],
                               ranges := if added then w.ranges + [w.srcRanges] else w.ranges))
  {
    hide Covers;
    NothingCovered();
    var ranges := if added then w.ranges + [w.srcRanges] else w.ranges;
    forall b: nat ensures CoversSome(ranges, b) <==> CoversSome(w.ranges, b) || (added && Covers(w.srcRanges, b)) {
      if added { CoversSomeSnoc(w.ranges, w.srcRanges, b); }
    }
  }

  lemma NothingCovered()
    ensures Canonical([]) && (forall b: nat :: !Covers([], b)) && Total([]) == 0
  {
  }

  lemma CoversSomeSnoc(ranges: seq<seq<Range>>, rs: seq<Range>, b: nat)
    ensures CoversSome(ranges + [rs], b) <==> CoversSome(ranges, b) || Covers(rs, b)
  {
    hide Covers;
    var all := ranges + [rs];
    if Covers(rs, b) { assert Covers(all[|ranges|], b); }
    if CoversSome(ranges, b) {
      var k :| 0 <= k < |ranges| && Covers(ranges[k], b);
      assert Covers(all[k], b);
    }
  }

  /** The blocks of a new piece are in no earlier piece. */
  lemma PiecesGrow(tgt: Zip, src: Zip, w: Work, image: seq<ImageChunk>, source: SourceImage, rs: seq<Range>)
    requires PiecesOk(tgt, src, w) && PieceOk(tgt, src, image, source, rs) && WithinLimit(rs, src.limit)
    requires forall b: nat :: CoversSome(w.ranges, b) ==> !Covers(rs, b)
    requires src.chunks != [] && forall b: nat :: Covers(rs, b) ==> !InRange(ChunkBlocks(CentralDirectory(src)), b)
    ensures PiecesOk(tgt, src, w.(tgts := w.tgts + [image], srcs := w.srcs + [source], ranges := w.ranges + [rs]))
  {
    hide PieceOk, WithinLimit, Covers, ChunkBlocks, CoversSome;
    ApartGrows(w.ranges, rs);
    forall b: nat | CoversSome(w.ranges + [rs], b) ensures !InRange(ChunkBlocks(CentralDirectory(src)), b) {
      CoversSomeSnoc(w.ranges, rs, b);
    }
  }

  lemma ApartGrows(ranges: seq<seq<Range>>, rs: seq<Range>)
    requires PairwiseApart(ranges) && forall b: nat :: CoversSome(ranges, b) ==> !Covers(rs, b)
    ensures PairwiseApart(ranges + [rs])
  {
    hide Covers;
    var all := ranges + [rs];
    forall j, k | 0 <= j < k < |all| ensures DisjointRanges(all[j], all[k]) {
      if k == |ranges| {
        forall x: nat ensures !(Covers(all[j], x) && Covers(rs, x)) {
          if Covers(all[j], x) { assert CoversSome(ranges, x); }
        }
      } else {
        assert DisjointRanges(ranges[j], ranges[k]);
      }
    }
  }

  // ---------- the split ----------

  ghost predicate Mirrors(w: Work, used: RangeSet, srcRanges: RangeSet)
    reads used, srcRanges
  {
    used.Valid() && srcRanges.Valid() && w.used == used.ranges_ && w.srcRanges == srcRanges.ranges_
  }

  /** The pieces cover the target; their sources are disjoint and, but for the central directory that
      goes with the last one, exceed the limit by at most a block. */
  ghost predicate SplitOk(tgt: Zip, src: Zip, tgts: seq<seq<ImageChunk>>, srcs: seq<SourceImage>,
                          ranges: seq<seq<Range>>) {
    && |tgts| == |srcs| == |ranges| && PiecesCover(tgts, |tgt.file|) && PairwiseApart(ranges)
    && (forall k :: 0 <= k < |ranges| ==> PieceOk(tgt, src, tgts[k], srcs[k], ranges[k]))
    && (forall k :: 0 <= k < |ranges| ==>
      WithinLimit(ranges[k], src.limit) || (k == |ranges| - 1 && LastWithinLimit(src, ranges[k])))
  }

  ghost predicate LastWithinLimit(src: Zip, rs: seq<Range>) {
    && src.chunks != [] && (forall b: nat :: InRange(ChunkBlocks(CentralDirectory(src)), b) ==> Covers(rs, b))
    && Total(rs) * BLOCK_SIZE <= src.limit + BLOCK_SIZE + Length(ChunkBlocks(CentralDirectory(src))) * BLOCK_SIZE
  }

  lemma WorkStarts(tgt: Zip, src: Zip, used: seq<Range>)
    requires TargetOk(tgt) && SourceOk(src) && Canonical(used)
    requires forall b: nat :: Covers(used, b) <==> InRange(ChunkBlocks(CentralDirectory(src)), b)
    ensures Working(tgt, src, Work(0, 0, used, [], [], [], [], [], []))
  {
    NothingCovered();
    TilesStart(tgt.chunks, 0, |tgt.file|);
  }

  /** The chunk goes in as a normal chunk, without a source. */
  lemma AddPlain(tgt: Zip, src: Zip, w: Work)
    requires TargetOk(tgt) && Working(tgt, src, w) && w.i < |tgt.chunks|
    ensures var t := tgt.chunks[w.i];
            Working(tgt, src, w.(i := w.i + 1, tgtChunks := w.tgtChunks + [NormalChunk(t.start, t.len)]))
  {
    hide TargetSide, PieceOk, Covers, Canonical, UsedExactly, Housed, InFile, WithinLimit;
    var t := tgt.chunks[w.i];
    assert w.srcChunks == w.(srcChunks := w.srcChunks).srcChunks;
    TargetGrows(tgt, w, NormalChunk(t.start, t.len), w.srcChunks);
  }

  /** The chunk goes in with the blocks of its source. */
  lemma AddMatched(tgt: Zip, src: Zip, w: Work, d: ImageChunk, start: nat, len: nat, rs: seq<Range>, c: ImageChunk,
                   srcChunks: seq<ImageChunk>)
    requires TargetOk(tgt) && SourceOk(src) && Working(tgt, src, w) && w.i < |tgt.chunks|
    requires d in src.chunks && tgt.chunks[w.i].name != "" && NameMatches(d, tgt.chunks[w.i].name, true)
    requires 0 < len && d.start <= start && start + len <= End(d)
    requires Free(w.used, start, len) && Total(w.srcRanges) * BLOCK_SIZE + len <= src.limit
    requires Canonical(rs) && forall b: nat :: Covers(rs, b) <==>
               Covers(w.srcRanges, b) || InRange(ByteRange(start, len), b)
    requires if d.kind.Deflate? && len == d.len then srcChunks == w.srcChunks + [d] && c == tgt.chunks[w.i]
             else srcChunks == w.srcChunks && c == NormalChunk(tgt.chunks[w.i].start, tgt.chunks[w.i].len)
    ensures Working(tgt, src, w.(i := w.i + 1, srcRanges := rs, srcChunks := srcChunks, tgtChunks := w.tgtChunks + [c]))
  {
    hide TargetSide, PieceOk, Covers, Canonical, UsedExactly, Housed, InFile, WithinLimit, Free, SourceSide, Total,
      ByteRange;
    assert tgt.chunks[w.i] in tgt.chunks;
    if c.kind.Deflate? {
      assert d in srcChunks && NameMatches(d, c.name, false);
    }
    TargetGrows(tgt, w, c, srcChunks);
    SourceGrows(src, w, start, len, rs, srcChunks, d, w.tgtChunks + [c]);
    TargetIgnoresRanges(tgt, w.(i := w.i + 1, tgtChunks := w.tgtChunks + [c], srcChunks := srcChunks), rs);
  }

  lemma TargetIgnoresRanges(tgt: Zip, w: Work, rs: seq<Range>)
    requires TargetSide(tgt, w)
    ensures TargetSide(tgt, w.(srcRanges := rs))
  {
  }

  lemma WorkCloses(tgt: Zip, src: Zip, w: Work, added: bool, used: seq<Range>, image: seq<ImageChunk>,
                   source: SourceImage)
    requires TargetOk(tgt) && SourceOk(src) && Working(tgt, src, w) && Canonical(used)
    requires added <==> AlignUp(w.from) < Pos(tgt, w.i)
    requires added ==> image != [] && Tiles(image, AlignUp(w.from), Min(|tgt.file|, AlignUp(Pos(tgt, w.i))))
    requires added ==> PieceOk(tgt, src, image, source, w.srcRanges)
    requires if added then forall b: nat :: Covers(used, b) <==>
               Covers(w.used, b) || Covers(w.srcRanges, b) else used == w.used
    ensures Working(tgt, src, Closed(tgt, w, added, used, image, source))
  {
    hide TargetSide, PieceOk, Covers, Canonical, Housed, InFile, WithinLimit, SourceSide, Total, PairwiseApart, Tiles,
      CoversSome;
    TargetCloses(tgt, w, added, image);
    SourceCloses(src, w, added, used);
    var t := w.(from := Pos(tgt, w.i), srcRanges := [], srcChunks := [], tgtChunks := [],
      tgts := if added then w.tgts + [image] else w.tgts);
    TargetIgnoresUsed(tgt, t, Closed(tgt, w, added, used, image, source));
    var s := w.(used := used, srcRanges := [], srcChunks := [], tgtChunks := [],
      ranges := if added then w.ranges + [w.srcRanges] else w.ranges);
    SourceIgnoresTargets(src, s, Closed(tgt, w, added, used, image, source));
    if added {
      SourceFacts(src, w);
      PiecesGrow(tgt, src, w, image, source, w.srcRanges);
    }
  }

  function Closed(tgt: Zip, w: Work, added: bool, used: seq<Range>, image: seq<ImageChunk>, source: SourceImage): Work {
    if added then Work(w.i, Pos(tgt, w.i), used, [], [], [], w.tgts + [image], w.srcs + [source],
      w.ranges + [w.srcRanges])
    else Work(w.i, Pos(tgt, w.i), used, [], [], [], w.tgts, w.srcs, w.ranges)
  }

  lemma TargetIgnoresUsed(tgt: Zip, w: Work, v: Work)
    requires TargetSide(tgt, w)
    requires v.i == w.i && v.from == w.from && v.tgtChunks == w.tgtChunks && v.srcChunks == w.srcChunks
             && v.tgts == w.tgts
    ensures TargetSide(tgt, v)
  {
  }

  lemma SourceIgnoresTargets(src: Zip, w: Work, v: Work)
    requires SourceSide(src, w)
    requires v.used == w.used && v.srcRanges == w.srcRanges && v.srcChunks == w.srcChunks && v.tgtChunks == w.tgtChunks
             && v.ranges == w.ranges
    ensures SourceSide(src, v)
  {
  }

  /** The blocks collected for the current piece are in no earlier one, and not in the central directory. */
  lemma SourceFacts(src: Zip, w: Work)
    requires SourceSide(src, w)
    ensures forall b: nat :: CoversSome(w.ranges, b) ==> !Covers(w.srcRanges, b)
    ensures src.chunks != [] && forall b: nat :: Covers(w.srcRanges, b) ==>
              !InRange(ChunkBlocks(CentralDirectory(src)), b)
    ensures Canonical(w.srcRanges) && InFile(w.srcRanges, |src.file|) && Housed(w.srcChunks, w.srcRanges, src)
    ensures Canonical(w.used) && WithinLimit(w.srcRanges, src.limit)
    ensures w.srcRanges != [] ==> w.tgtChunks != []
  {
    hide Covers, CoversSome, InRange, ChunkBlocks;
  }

  lemma SourceParts(src: Zip)
    requires SourceOk(src)
    ensures src.chunks != [] && 0 < CentralDirectory(src).len && End(CentralDirectory(src)) <= |src.file| <= SIZE_MAX
    ensures 0 < src.limit
  {
  }

  lemma TargetParts(tgt: Zip)
    requires TargetOk(tgt)
    ensures tgt.chunks != []
  {
  }

  lemma CdRange(c: ImageChunk)
    ensures ChunkBlocks(c) == ByteRange(c.start, c.len)
  {
  }

  lemma WorkFacts(tgt: Zip, src: Zip, w: Work)
    requires Working(tgt, src, w)
    ensures Canonical(w.used) && Canonical(w.srcRanges) && InFile(w.srcRanges, |src.file|)
            && Housed(w.srcChunks, w.srcRanges, src)
    ensures TargetSide(tgt, w) && (w.srcRanges != [] ==> w.tgtChunks != []) && |w.tgts| == |w.ranges|
  {
    hide TargetSide, PiecesCover, Canonical, InFile, Housed;
  }

  lemma WorkSides(tgt: Zip, src: Zip, w: Work)
    requires Working(tgt, src, w)
    ensures TargetSide(tgt, w) && SourceSide(src, w)
  {
    hide TargetSide, SourceSide;
  }

  lemma MatchFits(tgt: Zip, src: Zip, i: nat, j: nat)
    requires SourceOk(src) && MatchesFit(tgt, src) && i < |tgt.chunks| && j < |src.chunks|
    requires tgt.chunks[i].name != "" && NameMatches(src.chunks[j], tgt.chunks[i].name, true)
    ensures 0 < src.chunks[j].len <= src.limit && End(src.chunks[j]) <= |src.file| && src.chunks[j] in src.chunks
  {
    hide NameMatches;
    assert tgt.chunks[i] in tgt.chunks && src.chunks[j] in src.chunks;
  }

  lemma CanonicalNonEmpty(rs: seq<Range>)
    requires Canonical(rs)
    ensures NonEmptyRanges(rs)
  {
  }

  /** With the central directory the last piece has something to be patched from. */
  lemma FinalRanges(src: Zip, w: Work, rs: seq<Range>)
    requires SourceOk(src) && SourceSide(src, w) && Canonical(rs)
    requires forall b: nat :: Covers(rs, b) <==>
               Covers(w.srcRanges, b) || InRange(ChunkBlocks(CentralDirectory(src)), b)
    ensures rs != [] && InFile(rs, |src.file|) && Housed(w.srcChunks, rs, src) && LastWithinLimit(src, rs)
    ensures forall b: nat :: CoversSome(w.ranges, b) ==> !Covers(w.srcRanges, b)
  {
    hide ByteRange, Canonical, UsedExactly, CoversSome, Total;
    var c := CentralDirectory(src);
    assert c in src.chunks;
    BlockCount(c.start, c.len);
    UnionCount(w.srcRanges, rs, ChunkBlocks(c));
    FileBlocks(w.srcRanges, rs, c.start, c.len, |src.file|);
    HousedGrows(w.srcChunks, w.srcRanges, rs, src);
    SourceFacts(src, w);
    assert c.start / BLOCK_SIZE <= (c.start + c.len - 1) / BLOCK_SIZE;
    assert InRange(ChunkBlocks(c), c.start / BLOCK_SIZE);
    assert Covers(rs, c.start / BLOCK_SIZE);
  }

  lemma FinalCover(tgt: Zip, w: Work, added: bool, image: seq<ImageChunk>)
    requires TargetSide(tgt, w) && w.i == |tgt.chunks|
    requires added <==> AlignUp(w.from) < Pos(tgt, w.i)
    requires added ==> image != [] && Tiles(image, AlignUp(w.from), Min(|tgt.file|, AlignUp(Pos(tgt, w.i))))
    ensures PiecesCover(if added then w.tgts + [image] else w.tgts, |tgt.file|)
  {
    hide PiecesCover;
    AlignUpMeaning(w.from, |tgt.file|);
    AlignUpMeaning(|tgt.file|, |tgt.file|);
    if added { CoverGrows(w.tgts, image, AlignUp(w.from), |tgt.file|); }
  }

  lemma FinalSplit(tgt: Zip, src: Zip, w: Work, added: bool, image: seq<ImageChunk>, source: SourceImage,
                   rs: seq<Range>)
    requires Working(tgt, src, w) && w.i == |tgt.chunks|
    requires added <==> AlignUp(w.from) < Pos(tgt, w.i)
    requires added ==> image != [] && Tiles(image, AlignUp(w.from), Min(|tgt.file|, AlignUp(Pos(tgt, w.i))))
    requires added ==> PieceOk(tgt, src, image, source, rs) && LastWithinLimit(src, rs)
    requires src.chunks != [] && forall b: nat :: Covers(rs, b) <==>
               Covers(w.srcRanges, b) || InRange(ChunkBlocks(CentralDirectory(src)), b)
    requires forall b: nat :: CoversSome(w.ranges, b) ==> !Covers(w.srcRanges, b)
    ensures if added then SplitOk(tgt, src, w.tgts + [image], w.srcs + [source], w.ranges + [rs])
            else SplitOk(tgt, src, w.tgts, w.srcs, w.ranges)
  {
    hide TargetSide, SourceSide, PieceOk, LastWithinLimit, WithinLimit, PiecesCover, Tiles, Covers, CoversSome, InRange,
      ChunkBlocks;
    FinalCover(tgt, w, added, image);
    if added { ApartGrows(w.ranges, rs); }
  }

  // ---------- which deflate chunks get their sources ----------

  /** The first source chunk with the name of a target chunk. */
  ghost predicate FirstMatch(src: Zip, t: ImageChunk, e: nat) {
    && t.name != "" && e < |src.chunks| && NameMatches(src.chunks[e], t.name, true)
    && forall i :: 0 <= i < e ==> !NameMatches(src.chunks[i], t.name, true)
  }

  /** A piece has the blocks of the source chunk and, if both are deflate chunks, the two chunks. */
  ghost predicate TogetherIn(image: seq<ImageChunk>, sources: seq<ImageChunk>, rs: seq<Range>, t: ImageChunk,
                             d: ImageChunk) {
    CoversChunk(rs, d) && (t.kind.Deflate? && d.kind.Deflate? ==> t in image && d in sources)
  }

  ghost predicate Together(tgts: seq<seq<ImageChunk>>, srcs: seq<SourceImage>, ranges: seq<seq<Range>>, t: ImageChunk,
                           d: ImageChunk) {
    && |srcs| == |tgts| == |ranges|
    && exists k :: 0 <= k < |tgts| && TogetherIn(tgts[k], srcs[k].chunks, ranges[k], t, d)
  }

  ghost predicate EarlierHas(tgts: seq<seq<ImageChunk>>, ranges: seq<seq<Range>>, t: ImageChunk, b: nat, k: nat) {
    k < |tgts| && k < |ranges| && tgts[k] != [] && tgts[k][0].start < t.start && Covers(ranges[k], b)
  }

  /** A block of the source chunk is in the central directory, or in a piece that begins before the target chunk. */
  ghost predicate Taken(src: Zip, tgts: seq<seq<ImageChunk>>, ranges: seq<seq<Range>>, t: ImageChunk, d: ImageChunk) {
    exists b: nat :: BlockTaken(src, tgts, ranges, t, d, b)
  }

  ghost predicate BlockTaken(src: Zip, tgts: seq<seq<ImageChunk>>, ranges: seq<seq<Range>>, t: ImageChunk,
                             d: ImageChunk,
                             b: nat) {
    && src.chunks != [] && InRange(ChunkBlocks(d), b)
    && (InRange(ChunkBlocks(CentralDirectory(src)), b) || exists k: nat :: EarlierHas(tgts, ranges, t, b, k))
  }

  /** The target chunk begins among the chunks collected for piece k, but no later than the piece. */
  ghost predicate AtHeadOf(tgts: seq<seq<ImageChunk>>, size: nat, froms: seq<nat>, t: ImageChunk, k: nat) {
    k < |froms| && froms[k] <= t.start <= PieceStart(tgts, size, k)
  }

  ghost predicate AtHead(tgts: seq<seq<ImageChunk>>, size: nat, froms: seq<nat>, t: ImageChunk) {
    exists k: nat :: k < |tgts| && AtHeadOf(tgts, size, froms, t, k)
  }

  /** froms[k] is where the chunks collected for piece k begin; the piece itself begins at the next block. */
  ghost predicate FromsOk(tgts: seq<seq<ImageChunk>>, froms: seq<nat>) {
    && |froms| == |tgts| + 1
    && forall k :: 0 <= k < |tgts| ==>
         tgts[k] != [] && tgts[k][0].start == AlignUp(froms[k]) && tgts[k][0].start < froms[|tgts|]
  }

  /** What has become of a target chunk that has been handled: still in hand, in a piece, without its
      source, or cut off. */
  ghost predicate Placed(src: Zip, size: nat, w: Work, froms: seq<nat>, t: ImageChunk, d: ImageChunk) {
    || (TogetherIn(w.tgtChunks, w.srcChunks, w.srcRanges, t, d) && w.from <= t.start)
    || Together(w.tgts, w.srcs, w.ranges, t, d)
    || Taken(src, w.tgts, w.ranges, t, d)
    || AtHead(w.tgts, size, froms, t)
    || (|froms| > 0 && froms[|froms| - 1] <= t.start < w.from)
  }

  ghost predicate AllPlaced(tgt: Zip, src: Zip, w: Work, froms: seq<nat>) {
    && FromsOk(w.tgts, froms) && froms[|w.tgts|] <= w.from <= AlignUp(froms[|w.tgts|])
    && forall j, e :: 0 <= j < w.i && j < |tgt.chunks| && 0 <= e < |src.chunks| && FirstMatch(src, tgt.chunks[j], e) ==>
         Placed(src, |tgt.file|, w, froms, tgt.chunks[j], src.chunks[e])
  }

  /** In the end: a piece has the blocks of a target chunk's source, and the two chunks if they are deflate
      chunks, unless a block of the source has been taken or the target chunk is at the head of its piece. */
  ghost predicate SourcesGiven(tgt: Zip, src: Zip, tgts: seq<seq<ImageChunk>>, srcs: seq<SourceImage>,
                               ranges: seq<seq<Range>>, froms: seq<nat>) {
    forall j, e :: 0 <= j < |tgt.chunks| && 0 <= e < |src.chunks| && FirstMatch(src, tgt.chunks[j], e) ==>
      || Together(tgts, srcs, ranges, tgt.chunks[j], src.chunks[e])
      || Taken(src, tgts, ranges, tgt.chunks[j], src.chunks[e])
      || AtHead(tgts, |tgt.file|, froms, tgt.chunks[j])
      || (froms != [] && AlignUp(froms[|froms| - 1]) >= |tgt.file| && froms[|froms| - 1] <= tgt.chunks[j].start)
  }

  ghost predicate MoreBlocks(rs: seq<Range>, rs': seq<Range>) {
    forall b: nat :: Covers(rs, b) ==> Covers(rs', b)
  }

  lemma MoreTogether(image: seq<ImageChunk>, sources: seq<ImageChunk>, rs: seq<Range>, image': seq<ImageChunk>,
                     sources': seq<ImageChunk>, rs': seq<Range>, t: ImageChunk, d: ImageChunk)
    requires TogetherIn(image, sources, rs, t, d) && MoreBlocks(rs, rs')
    requires (t in image ==> t in image') && (d in sources ==> d in sources')
    ensures TogetherIn(image', sources', rs', t, d)
  {
    hide Covers;
  }

  /** A chunk more. */
  lemma PlacedMore(src: Zip, size: nat, w: Work, w': Work, froms: seq<nat>, t: ImageChunk, d: ImageChunk)
    requires Placed(src, size, w, froms, t, d)
    requires w'.from == w.from && w'.tgts == w.tgts && w'.srcs == w.srcs && w'.ranges == w.ranges
    requires forall c :: c in w.tgtChunks ==> c in w'.tgtChunks
    requires forall c :: c in w.srcChunks ==> c in w'.srcChunks
    requires MoreBlocks(w.srcRanges, w'.srcRanges)
    ensures Placed(src, size, w', froms, t, d)
  {
    hide Together, TogetherIn, Taken, AtHead, MoreBlocks;
    if TogetherIn(w.tgtChunks, w.srcChunks, w.srcRanges, t, d) {
      MoreTogether(w.tgtChunks, w.srcChunks, w.srcRanges, w'.tgtChunks, w'.srcChunks, w'.srcRanges, t, d);
    }
  }

  lemma MorePlaced(tgt: Zip, src: Zip, w: Work, w': Work, froms: seq<nat>)
    requires AllPlaced(tgt, src, w, froms) && w.i < |tgt.chunks| && w'.i == w.i + 1
    requires w'.from == w.from && w'.tgts == w.tgts && w'.srcs == w.srcs && w'.ranges == w.ranges
    requires forall c :: c in w.tgtChunks ==> c in w'.tgtChunks
    requires forall c :: c in w.srcChunks ==> c in w'.srcChunks
    requires MoreBlocks(w.srcRanges, w'.srcRanges)
    requires forall e :: 0 <= e < |src.chunks| && FirstMatch(src, tgt.chunks[w.i], e) ==>
               Placed(src, |tgt.file|, w', froms, tgt.chunks[w.i], src.chunks[e])
    ensures AllPlaced(tgt, src, w', froms)
  {
    hide Placed, FirstMatch, FromsOk, MoreBlocks;
    forall j, e | 0 <= j < w'.i && j < |tgt.chunks| && 0 <= e < |src.chunks| && FirstMatch(src, tgt.chunks[j], e)
      ensures Placed(src, |tgt.file|, w', froms, tgt.chunks[j], src.chunks[e])
    {
      if j < w.i { PlacedMore(src, |tgt.file|, w, w', froms, tgt.chunks[j], src.chunks[e]); }
    }
  }

  /** A chunk that goes in without its source: nothing matches it, or what does is taken. */
  lemma PlainPlaced(tgt: Zip, src: Zip, w: Work, w': Work, froms: seq<nat>)
    requires TargetOk(tgt) && Working(tgt, src, w) && AllPlaced(tgt, src, w, froms) && w.i < |tgt.chunks|
    requires w'.i == w.i + 1 && w'.from == w.from && w'.tgts == w.tgts && w'.srcs == w.srcs && w'.ranges == w.ranges
    requires forall c :: c in w.tgtChunks ==> c in w'.tgtChunks
    requires forall c :: c in w.srcChunks ==> c in w'.srcChunks
    requires MoreBlocks(w.srcRanges, w'.srcRanges)
    requires forall e :: 0 <= e < |src.chunks| && FirstMatch(src, tgt.chunks[w.i], e) ==>
               !Free(w.used, src.chunks[e].start, src.chunks[e].len)
    ensures AllPlaced(tgt, src, w', froms)
  {
    hide TargetOk, Working, AllPlaced, FirstMatch, Free, Placed, Taken;
    forall e | 0 <= e < |src.chunks| && FirstMatch(src, tgt.chunks[w.i], e)
      ensures Placed(src, |tgt.file|, w', froms, tgt.chunks[w.i], src.chunks[e])
    {
      NotFreeIsTaken(tgt, src, w, froms, src.chunks[e]);
      TakenIsPlaced(src, |tgt.file|, w', froms, tgt.chunks[w.i], src.chunks[e]);
    }
    MorePlaced(tgt, src, w, w', froms);
  }

  lemma TakenIsPlaced(src: Zip, size: nat, w: Work, froms: seq<nat>, t: ImageChunk, d: ImageChunk)
    requires Taken(src, w.tgts, w.ranges, t, d)
    ensures Placed(src, size, w, froms, t, d)
  {
    hide Taken;
  }

  lemma NotFreeIsTaken(tgt: Zip, src: Zip, w: Work, froms: seq<nat>, d: ImageChunk)
    requires TargetOk(tgt) && Working(tgt, src, w) && AllPlaced(tgt, src, w, froms) && w.i < |tgt.chunks|
    requires !Free(w.used, d.start, d.len)
    ensures Taken(src, w.tgts, w.ranges, tgt.chunks[w.i], d)
  {
    hide PieceOk, Covers, Canonical, ByteRange, InFile, Housed, WithinLimit, PairwiseApart, Tiles, PiecesCover, Placed,
      FirstMatch;
    var t := tgt.chunks[w.i];
    var b: nat :| Covers(w.used, b) && InRange(ByteRange(d.start, d.len), b);
    assert InRange(ChunkBlocks(d), b);
    if !InRange(ChunkBlocks(CentralDirectory(src)), b) {
      var k :| 0 <= k < |w.ranges| && Covers(w.ranges[k], b);
      assert w.tgts[k] != [] && w.tgts[k][0].start < froms[|w.tgts|] <= w.from <= t.start;
      assert EarlierHas(w.tgts, w.ranges, t, b, k);
    }
    assert BlockTaken(src, w.tgts, w.ranges, t, d, b);
  }

  /** A chunk that goes in with its source. */
  lemma MatchedPlaced(tgt: Zip, src: Zip, w: Work, w': Work, froms: seq<nat>, e: nat)
    requires TargetOk(tgt) && Working(tgt, src, w) && AllPlaced(tgt, src, w, froms) && w.i < |tgt.chunks|
    requires w'.i == w.i + 1 && w'.from == w.from && w'.tgts == w.tgts && w'.srcs == w.srcs && w'.ranges == w.ranges
    requires forall c :: c in w.tgtChunks ==> c in w'.tgtChunks
    requires forall c :: c in w.srcChunks ==> c in w'.srcChunks
    requires MoreBlocks(w.srcRanges, w'.srcRanges)
    requires FoundFirst(src, tgt.chunks[w.i], e)
    requires TogetherIn(w'.tgtChunks, w'.srcChunks, w'.srcRanges, tgt.chunks[w.i], src.chunks[e])
    ensures AllPlaced(tgt, src, w', froms)
  {
    hide TargetOk, AllPlaced, FirstMatch, Together, TogetherIn, Taken, AtHead, SourceSide, PiecesOk, Tiles, PiecesCover,
      ServedFrom, MoreBlocks;
    forall e' | 0 <= e' < |src.chunks| && FirstMatch(src, tgt.chunks[w.i], e')
      ensures Placed(src, |tgt.file|, w', froms, tgt.chunks[w.i], src.chunks[e'])
    {
      FirstIsOne(src, tgt.chunks[w.i], e, e');
    }
    MorePlaced(tgt, src, w, w', froms);
  }

  /** What looking for a target chunk's name in the source finds. */
  ghost predicate FoundFirst(src: Zip, t: ImageChunk, e: nat) {
    && e < |src.chunks| && NameMatches(src.chunks[e], t.name, true)
    && forall i :: 0 <= i < e ==> !NameMatches(src.chunks[i], t.name, true)
  }

  lemma FirstIsOne(src: Zip, t: ImageChunk, e: nat, e': nat)
    requires FoundFirst(src, t, e) && FirstMatch(src, t, e')
    ensures e' == e
  {
    hide NameMatches;
  }

  /** The work with a chunk more in hand. */
  ghost predicate OneMore(w: Work, w': Work, c: ImageChunk) {
    && w'.i == w.i + 1 && w'.from == w.from && w'.tgts == w.tgts && w'.srcs == w.srcs && w'.ranges == w.ranges
    && w'.tgtChunks == w.tgtChunks + [c] && w.srcChunks <= w'.srcChunks && MoreBlocks(w.srcRanges, w'.srcRanges)
  }

  lemma UnmatchedPlaced(tgt: Zip, src: Zip, w: Work, w': Work, froms: seq<nat>, c: ImageChunk)
    requires TargetOk(tgt) && Working(tgt, src, w) && AllPlaced(tgt, src, w, froms) && w.i < |tgt.chunks|
    requires OneMore(w, w', c)
    requires tgt.chunks[w.i].name == ""
             || forall j :: 0 <= j < |src.chunks| ==> !NameMatches(src.chunks[j], tgt.chunks[w.i].name, true)
    ensures AllPlaced(tgt, src, w', froms)
  {
    hide TargetOk, Working, AllPlaced, NameMatches;
    PlainPlaced(tgt, src, w, w', froms);
  }

  lemma UsedPlaced(tgt: Zip, src: Zip, w: Work, w': Work, froms: seq<nat>, c: ImageChunk, e: nat)
    requires TargetOk(tgt) && Working(tgt, src, w) && AllPlaced(tgt, src, w, froms) && w.i < |tgt.chunks|
    requires OneMore(w, w', c) && FoundFirst(src, tgt.chunks[w.i], e)
    requires !Free(w.used, src.chunks[e].start, src.chunks[e].len)
    ensures AllPlaced(tgt, src, w', froms)
  {
    hide TargetOk, Working, AllPlaced, FoundFirst, FirstMatch, Free;
    FoundBound(src, tgt.chunks[w.i], e);
    forall e' | 0 <= e' < |src.chunks| && FirstMatch(src, tgt.chunks[w.i], e')
      ensures !Free(w.used, src.chunks[e'].start, src.chunks[e'].len) {
      FirstIsOne(src, tgt.chunks[w.i], e, e');
    }
    PlainPlaced(tgt, src, w, w', froms);
  }

  lemma FoundBound(src: Zip, t: ImageChunk, e: nat)
    requires FoundFirst(src, t, e)
    ensures e < |src.chunks|
  {
  }

  lemma ServedPlaced(tgt: Zip, src: Zip, w: Work, w': Work, froms: seq<nat>, c: ImageChunk, e: nat)
    requires TargetOk(tgt) && Working(tgt, src, w) && AllPlaced(tgt, src, w, froms) && w.i < |tgt.chunks|
    requires FoundFirst(src, tgt.chunks[w.i], e) && OneMore(w, w', c)
    requires forall b: nat :: InRange(ByteRange(src.chunks[e].start, src.chunks[e].len), b) ==> Covers(w'.srcRanges, b)
    requires src.chunks[e].kind.Deflate? ==> c == tgt.chunks[w.i] && src.chunks[e] in w'.srcChunks
    requires 0 < src.chunks[e].len && End(src.chunks[e]) <= SIZE_MAX
    ensures AllPlaced(tgt, src, w', froms)
  {
    hide TargetOk, Working, AllPlaced, FoundFirst, Covers, ByteRange, MoreBlocks;
    FoundBound(src, tgt.chunks[w.i], e);
    BlockCount(src.chunks[e].start, src.chunks[e].len);
    MatchedPlaced(tgt, src, w, w', froms, e);
  }

  lemma FoundIsFirst(src: Zip, t: ImageChunk, e: nat)
    requires e < |src.chunks| && NameMatches(src.chunks[e], t.name, true)
    requires forall j :: 0 <= j < e ==> !NameMatches(src.chunks[j], t.name, true)
    ensures FoundFirst(src, t, e)
  {
  }

  lemma FromsAtEnd(tgt: Zip, src: Zip, w: Work, froms: seq<nat>, added: bool, image: seq<ImageChunk>)
    requires Working(tgt, src, w) && AllPlaced(tgt, src, w, froms)
    requires added <==> AlignUp(w.from) < Pos(tgt, w.i)
    requires added ==> image != [] && Tiles(image, AlignUp(w.from), Min(|tgt.file|, AlignUp(Pos(tgt, w.i))))
    ensures FromsOk(if added then w.tgts + [image] else w.tgts, NextFroms(tgt, w, froms, added))
  {
    hide Placed, FirstMatch, Pos, SourceSide, PiecesOk, FromsOk, Tiles;
    if added { TilesStart(image, AlignUp(w.from), Min(|tgt.file|, AlignUp(Pos(tgt, w.i)))); }
    FromsClose(tgt, src, w, froms, added, image);
  }

  lemma NonePlaced(tgt: Zip, src: Zip, w: Work)
    requires w.i == 0 && w.from == 0 && w.tgts == []
    ensures AllPlaced(tgt, src, w, [0])
  {
  }

  lemma StartsBefore(tgt: Zip, i: nat)
    requires TargetOk(tgt) && i <= |tgt.chunks|
    ensures forall j :: 0 <= j < i ==> tgt.chunks[j].start < Pos(tgt, i)
  {
    forall j | 0 <= j < i ensures tgt.chunks[j].start < Pos(tgt, i) { EndsBefore(tgt, j, i); }
  }

  lemma {:induction false} EndsBefore(tgt: Zip, j: nat, i: nat)
    requires TargetOk(tgt) && j < i <= |tgt.chunks|
    ensures tgt.chunks[j].start < End(tgt.chunks[j]) <= Pos(tgt, i)
    decreases i
  {
    NextPos(tgt, i - 1);
    if j < i - 1 { EndsBefore(tgt, j, i - 1); }
  }

  lemma PieceCloses(tgt: Zip, src: Zip, w: Work, froms: seq<nat>, added: bool, used: seq<Range>, image: seq<ImageChunk>,
                    source: SourceImage)
    requires TargetOk(tgt) && Working(tgt, src, w) && AllPlaced(tgt, src, w, froms)
    requires added <==> AlignUp(w.from) < Pos(tgt, w.i)
    requires added ==> image != [] && Tiles(image, AlignUp(w.from), Min(|tgt.file|, AlignUp(Pos(tgt, w.i))))
    requires added ==> source.chunks == w.srcChunks && KeepsAfter(w.tgtChunks, image, AlignUp(w.from))
    ensures AllPlaced(tgt, src, Closed(tgt, w, added, used, image, source), NextFroms(tgt, w, froms, added))
  {
    hide TargetOk, AllPlaced, KeepsAfter, Tiles, Closed, NextFroms, SourceSide, PieceOk, PiecesCover, ServedFrom, Pos;
    StartsBefore(tgt, w.i);
    if added { TilesStart(image, AlignUp(w.from), Min(|tgt.file|, AlignUp(Pos(tgt, w.i)))); }
    PlacedCloses(tgt, src, w, froms, added, used, image, source);
  }

  /** With the last piece every chunk has found its place. */
  lemma SplitCloses(tgt: Zip, src: Zip, w: Work, froms: seq<nat>, added: bool, rs: seq<Range>, image: seq<ImageChunk>,
                    source: SourceImage)
    requires TargetOk(tgt) && Working(tgt, src, w) && AllPlaced(tgt, src, w, froms) && w.i == |tgt.chunks|
    requires MoreBlocks(w.srcRanges, rs)
    requires added <==> AlignUp(w.from) < Pos(tgt, w.i)
    requires added ==> image != [] && Tiles(image, AlignUp(w.from), Min(|tgt.file|, AlignUp(Pos(tgt, w.i))))
    requires added ==> source.chunks == w.srcChunks && KeepsAfter(w.tgtChunks, image, AlignUp(w.from))
    ensures var w' := Closed(tgt, w.(srcRanges := rs), added, w.used, image, source);
            SourcesGiven(tgt, src, w'.tgts, w'.srcs, w'.ranges, NextFroms(tgt, w, froms, added))
  {
    hide TargetOk, KeepsAfter, Tiles, SourceSide, PieceOk, PiecesCover, ServedFrom, FirstMatch, Together, Taken, AtHead,
      MoreBlocks;
    var w1 := w.(srcRanges := rs);
    var w', froms' := Closed(tgt, w1, added, w.used, image, source), NextFroms(tgt, w, froms, added);
    StartsBefore(tgt, w.i);
    if added { TilesStart(image, AlignUp(w.from), Min(|tgt.file|, AlignUp(Pos(tgt, w.i)))); }
    RangesDoNotMatter(tgt, src, w, rs, froms);
    PlacedCloses(tgt, src, w1, froms, added, w.used, image, source);
    AlignUpMeaning(froms[|w.tgts|], w.from);
    forall j, e | 0 <= j < |tgt.chunks| && 0 <= e < |src.chunks| && FirstMatch(src, tgt.chunks[j], e)
      ensures || Together(w'.tgts, w'.srcs, w'.ranges, tgt.chunks[j], src.chunks[e])
              || Taken(src, w'.tgts, w'.ranges, tgt.chunks[j], src.chunks[e])
              || AtHead(w'.tgts, |tgt.file|, froms', tgt.chunks[j])
              || (froms' != [] && AlignUp(froms'[|froms'| - 1]) >= |tgt.file|
                && froms'[|froms'| - 1] <= tgt.chunks[j].start)
    {
      assert Placed(src, |tgt.file|, w', froms', tgt.chunks[j], src.chunks[e]);
    }
  }

  lemma RangesDoNotMatter(tgt: Zip, src: Zip, w: Work, rs: seq<Range>, froms: seq<nat>)
    requires TargetSide(tgt, w) && AllPlaced(tgt, src, w, froms) && MoreBlocks(w.srcRanges, rs)
    ensures TargetSide(tgt, w.(srcRanges := rs)) && AllPlaced(tgt, src, w.(srcRanges := rs), froms)
  {
    hide Placed, FirstMatch, FromsOk, PiecesCover, Tiles, MoreBlocks;
    var w' := w.(srcRanges := rs);
    forall j, e | 0 <= j < w.i && j < |tgt.chunks| && 0 <= e < |src.chunks| && FirstMatch(src, tgt.chunks[j], e)
      ensures Placed(src, |tgt.file|, w', froms, tgt.chunks[j], src.chunks[e])
    {
      PlacedMore(src, |tgt.file|, w, w', froms, tgt.chunks[j], src.chunks[e]);
    }
  }

  /** A finished piece, or one of which nothing is left. */
  lemma PlacedCloses(tgt: Zip, src: Zip, w: Work, froms: seq<nat>, added: bool, used: seq<Range>,
                     image: seq<ImageChunk>,
                     source: SourceImage)
    requires TargetOk(tgt) && TargetSide(tgt, w) && AllPlaced(tgt, src, w, froms) && |w.tgts| == |w.srcs| == |w.ranges|
    requires added <==> AlignUp(w.from) < Pos(tgt, w.i)
    requires added ==> image != [] && image[0].start == AlignUp(w.from) && source.chunks == w.srcChunks
    requires added ==> KeepsAfter(w.tgtChunks, image, AlignUp(w.from))
    requires w.i <= |tgt.chunks| && w.from <= Pos(tgt, w.i)
    requires forall j :: 0 <= j < w.i ==> tgt.chunks[j].start < Pos(tgt, w.i)
    ensures AllPlaced(tgt, src, Closed(tgt, w, added, used, image, source), NextFroms(tgt, w, froms, added))
  {
    hide TargetOk, TargetSide, FirstMatch, KeepsAfter, Placed, FromsOk;
    var w', froms' := Closed(tgt, w, added, used, image, source), NextFroms(tgt, w, froms, added);
    FromsClose(tgt, src, w, froms, added, image);
    forall j, e | 0 <= j < w'.i && j < |tgt.chunks| && 0 <= e < |src.chunks| && FirstMatch(src, tgt.chunks[j], e)
      ensures Placed(src, |tgt.file|, w', froms', tgt.chunks[j], src.chunks[e])
    {
      PlacedCloses1(tgt, src, w, froms, added, used, image, source, tgt.chunks[j], src.chunks[e]);
    }
  }

  function NextFroms(tgt: Zip, w: Work, froms: seq<nat>, added: bool): seq<nat> {
    if added then froms + [Pos(tgt, w.i)] else froms
  }

  lemma FromsClose(tgt: Zip, src: Zip, w: Work, froms: seq<nat>, added: bool, image: seq<ImageChunk>)
    requires FromsOk(w.tgts, froms) && froms[|w.tgts|] <= w.from <= AlignUp(froms[|w.tgts|]) && w.from <= Pos(tgt, w.i)
    requires added <==> AlignUp(w.from) < Pos(tgt, w.i)
    requires added ==> image != [] && image[0].start == AlignUp(w.from)
    ensures var tgts', froms' := if added then w.tgts + [image] else w.tgts, NextFroms(tgt, w, froms, added);
            FromsOk(tgts', froms') && froms'[|tgts'|] <= Pos(tgt, w.i) <= AlignUp(froms'[|tgts'|])
  {
    AlignUpMeaning(froms[|w.tgts|], w.from);
    AlignUpMeaning(Pos(tgt, w.i), Pos(tgt, w.i));
    if added {
      var n := |w.tgts|;
      var tgts': seq<seq<ImageChunk>>, froms': seq<nat> := w.tgts + [image], froms + [Pos(tgt, w.i)];
      forall k | 0 <= k < n + 1
        ensures tgts'[k] != [] && tgts'[k][0].start == AlignUp(froms'[k]) && tgts'[k][0].start < froms'[n + 1]
      {
        if k < n { assert tgts'[k] == w.tgts[k] && froms'[k] == froms[k]; }
      }
    }
  }

  lemma PlacedCloses1(tgt: Zip, src: Zip, w: Work, froms: seq<nat>, added: bool, used: seq<Range>,
                      image: seq<ImageChunk>,
                      source: SourceImage, t: ImageChunk, d: ImageChunk)
    requires FromsOk(w.tgts, froms) && froms[|w.tgts|] <= w.from <= AlignUp(froms[|w.tgts|])
    requires |w.tgts| == |w.srcs| == |w.ranges| && t.start < Pos(tgt, w.i)
    requires added ==> image != [] && image[0].start == AlignUp(w.from) && source.chunks == w.srcChunks
    requires added ==> KeepsAfter(w.tgtChunks, image, AlignUp(w.from))
    requires Placed(src, |tgt.file|, w, froms, t, d)
    ensures Placed(src, |tgt.file|, Closed(tgt, w, added, used, image, source), NextFroms(tgt, w, froms, added), t, d)
  {
    hide Taken, Together, TogetherIn, AtHead;
    var n, size := |w.tgts|, |tgt.file|;
    var w', froms' := Closed(tgt, w, added, used, image, source), NextFroms(tgt, w, froms, added);
    if Together(w.tgts, w.srcs, w.ranges, t, d) {
      if added { TogetherMore(w.tgts, w.srcs, w.ranges, t, d, image, source, w.srcRanges); }
    } else if Taken(src, w.tgts, w.ranges, t, d) {
      if added { TakenMore(src, w.tgts, w.ranges, t, d, image, w.srcRanges); }
    } else if AtHead(w.tgts, size, froms, t) {
      if added { AtHeadMore(w.tgts, size, froms, t, image, Pos(tgt, w.i)); }
    } else if added {
      AlignUpMeaning(froms[n], w.from);
      AlignUpMeaning(w.from, w.from);
      if TogetherIn(w.tgtChunks, w.srcChunks, w.srcRanges, t, d) && AlignUp(w.from) < t.start {
        TogetherHere(w, t, d, image, source);
      } else {
        AtHeadHere(w.tgts, size, froms, t, image, Pos(tgt, w.i));
      }
    }
  }

  lemma TogetherMore(tgts: seq<seq<ImageChunk>>, srcs: seq<SourceImage>, ranges: seq<seq<Range>>, t: ImageChunk,
                     d: ImageChunk, image: seq<ImageChunk>, source: SourceImage, rs: seq<Range>)
    requires Together(tgts, srcs, ranges, t, d)
    ensures Together(tgts + [image], srcs + [source], ranges + [rs], t, d)
  {
    hide TogetherIn;
    var k :| 0 <= k < |tgts| && TogetherIn(tgts[k], srcs[k].chunks, ranges[k], t, d);
    assert TogetherIn((tgts + [image])[k], (srcs + [source])[k].chunks, (ranges + [rs])[k], t, d);
  }

  lemma TogetherHere(w: Work, t: ImageChunk, d: ImageChunk, image: seq<ImageChunk>, source: SourceImage)
    requires |w.srcs| == |w.tgts| == |w.ranges| && source.chunks == w.srcChunks
    requires TogetherIn(w.tgtChunks, w.srcChunks, w.srcRanges, t, d)
    requires KeepsAfter(w.tgtChunks, image, AlignUp(w.from)) && AlignUp(w.from) < t.start
    ensures Together(w.tgts + [image], w.srcs + [source], w.ranges + [w.srcRanges], t, d)
  {
    hide CoversChunk, AlignUp;
    var k := |w.tgts|;
    assert TogetherIn((w.tgts + [image])[k], (w.srcs + [source])[k].chunks, (w.ranges + [w.srcRanges])[k], t, d);
  }

  lemma TakenMore(src: Zip, tgts: seq<seq<ImageChunk>>, ranges: seq<seq<Range>>, t: ImageChunk, d: ImageChunk,
                  image: seq<ImageChunk>, rs: seq<Range>)
    requires Taken(src, tgts, ranges, t, d) && |tgts| == |ranges|
    ensures Taken(src, tgts + [image], ranges + [rs], t, d)
  {
    hide ChunkBlocks, InRange, Covers;
    var b: nat :| BlockTaken(src, tgts, ranges, t, d, b);
    if !InRange(ChunkBlocks(CentralDirectory(src)), b) {
      var k: nat :| EarlierHas(tgts, ranges, t, b, k);
      assert (tgts + [image])[k] == tgts[k] && (ranges + [rs])[k] == ranges[k];
      assert EarlierHas(tgts + [image], ranges + [rs], t, b, k);
    }
    assert BlockTaken(src, tgts + [image], ranges + [rs], t, d, b);
  }

  lemma AtHeadMore(tgts: seq<seq<ImageChunk>>, size: nat, froms: seq<nat>, t: ImageChunk, image: seq<ImageChunk>,
                   pos: nat)
    requires AtHead(tgts, size, froms, t)
    ensures AtHead(tgts + [image], size, froms + [pos], t)
  {
    var k: nat :| k < |tgts| && AtHeadOf(tgts, size, froms, t, k);
    assert (tgts + [image])[k] == tgts[k] && (froms + [pos])[k] == froms[k];
    assert tgts[k] == [] ==> PieceStart(tgts, size, k) == size;
    assert AtHeadOf(tgts + [image], size, froms + [pos], t, k);
  }

  lemma AtHeadHere(tgts: seq<seq<ImageChunk>>, size: nat, froms: seq<nat>, t: ImageChunk, image: seq<ImageChunk>,
                   pos: nat)
    requires |froms| == |tgts| + 1 && image != [] && froms[|tgts|] <= t.start <= image[0].start
    ensures AtHead(tgts + [image], size, froms + [pos], t)
  {
    var k := |tgts|;
    assert (tgts + [image])[k] == image && (froms + [pos])[k] == froms[k];
    assert AtHeadOf(tgts + [image], size, froms + [pos], t, k);
  }

  // ---------- validation ----------

  function PieceStart(images: seq<seq<ImageChunk>>, to: nat, k: nat): nat {
    if k < |images| && images[k] != [] then images[k][0].start else to
  }

  lemma {:induction false} CoverPrefix(images: seq<seq<ImageChunk>>, to: nat, k: nat)
    requires PiecesCover(images, to) && k <= |images|
    ensures PiecesCover(images[..k], PieceStart(images, to, k))
    ensures k < |images| ==> images[k] != [] && images[k][0].start % BLOCK_SIZE == 0
                             && Tiles(images[k], images[k][0].start, PieceStart(images, to, k + 1))
    decreases |images|
  {
    var n := |images|;
    if k == n {
      assert images[..k] == images;
    } else {
      var front, last := images[..n - 1], images[n - 1];
      if k < n - 1 {
        CoverPrefix(front, last[0].start, k);
        assert front[..k] == images[..k] && front[k] == images[k];
        CoverPrefix(front, last[0].start, k + 1);
      } else {
        assert images[..k] == front;
      }
    }
  }

  /** Every CHECK of the validation holds for a split. */
  method ValidateSplitImages(tgt: Zip, src: Zip, tgts: seq<seq<ImageChunk>>, srcs: seq<SourceImage>,
                             ranges: seq<seq<Range>>, totalTgtSize: nat)
    returns (ok: bool)
    requires SplitOk(tgt, src, tgts, srcs, ranges) && totalTgtSize == |tgt.file|
    ensures ok
  {
    hide PieceOk, WithinLimit, LastWithinLimit, PiecesCover, Tiles, Covers, PairwiseApart;
    if |tgts| != |srcs| { return false; }
    var lastOffset, k := 0, 0;
    CoverPrefix(tgts, totalTgtSize, 0);
    FirstAtZero(tgts, PieceStart(tgts, totalTgtSize, 0));
    while k < |tgts|
      invariant 0 <= k <= |tgts| && lastOffset == PieceStart(tgts, totalTgtSize, k)
    {
      CoverPrefix(tgts, totalTgtSize, k);
      var image := tgts[k];
      if image == [] { return false; }
      if lastOffset != image[0].start || lastOffset % BLOCK_SIZE != 0 { return false; }
      var j := 0;
      ghost var to := PieceStart(tgts, totalTgtSize, k + 1);
      while j < |image|
        invariant 0 <= j <= |image| && lastOffset == if j < |image| then image[j].start else to
      {
        TilesSuffix(image, image[0].start, to, j);
        TilesAt(image, image[0].start, to, j);
        if lastOffset != image[j].start { return false; }
        lastOffset := lastOffset + image[j].len;
        j := j + 1;
      }
      k := k + 1;
    }
    if totalTgtSize != lastOffset { return false; }
    if |srcs| != |ranges| { return false; }
    ok := DisjointSources(tgt, src, tgts, srcs, ranges);
  }

  lemma FirstAtZero(images: seq<seq<ImageChunk>>, to: nat)
    requires PiecesCover(images[..0], to)
    ensures to == 0
  {
  }

  method DisjointSources(tgt: Zip, src: Zip, tgts: seq<seq<ImageChunk>>, srcs: seq<SourceImage>,
                         ranges: seq<seq<Range>>) returns (ok: bool)
    requires SplitOk(tgt, src, tgts, srcs, ranges)
    ensures ok
  {
    hide WithinLimit, LastWithinLimit, PiecesCover, Covers, Canonical, ServedFrom, Housed, InFile, Packable, CoversSome;
    var used := new RangeSet();
    NothingCovered();
    var k := 0;
    NoneCovered(ranges[..0]);
    while k < |ranges|
      invariant 0 <= k <= |ranges| && used.Valid() && Canonical(used.ranges_) && fresh(used)
      invariant forall b: nat :: Covers(used.ranges_, b) <==> CoversSome(ranges[..k], b)
    {
      assert PieceOk(tgt, src, tgts[k], srcs[k], ranges[k]);
      CanonicalNonEmpty(ranges[k]);
      EarlierApart(ranges, k);
      var overlap := used.Overlaps(ranges[k]);
      if overlap { return false; }
      used.Insert(ranges[k]);
      assert ranges[..k + 1] == ranges[..k] + [ranges[k]];
      forall b: nat ensures CoversSome(ranges[..k + 1], b) <==> CoversSome(ranges[..k], b) || Covers(ranges[k], b) {
        CoversSomeSnoc(ranges[..k], ranges[k], b);
      }
      k := k + 1;
    }
    return true;
  }

  lemma NoneCovered(ranges: seq<seq<Range>>)
    requires ranges == []
    ensures forall b: nat :: !CoversSome(ranges, b)
  {
  }

  lemma EarlierApart(ranges: seq<seq<Range>>, k: nat)
    requires PairwiseApart(ranges) && k < |ranges|
    ensures forall b: nat :: CoversSome(ranges[..k], b) ==> !Covers(ranges[k], b)
  {
    hide Covers;
    forall b: nat | CoversSome(ranges[..k], b) ensures !Covers(ranges[k], b) {
      var j :| 0 <= j < k && Covers(ranges[..k][j], b);
      assert DisjointRanges(ranges[j], ranges[k]);
    }
  }

  method SplitZipModeImageWithLimit(tgt: Zip, src: Zip)
    returns (tgts: seq<seq<ImageChunk>>, srcs: seq<SourceImage>, ranges: seq<seq<Range>>, valid: bool,
             ghost froms: seq<nat>)
    requires TargetOk(tgt) && SourceOk(src) && MatchesFit(tgt, src) && tgt.limit == src.limit
    ensures SplitOk(tgt, src, tgts, srcs, ranges) && valid
    ensures FromsOk(tgts, froms) && SourcesGiven(tgt, src, tgts, srcs, ranges, froms)
  {
    hide TargetOk, SourceOk, MatchesFit, Working, TargetSide, SourceSide, PiecesOk, PieceOk, SplitOk, Covers,
    Canonical, Total, Tiles,
      AlignUp, Free, ChunkBlocks, InFile, ByteRange, Housed, NameMatches, Pos, AllPlaced, FoundFirst, KeepsAfter,
      FromsOk, SourcesGiven;
    tgts, srcs, ranges := [], [], [];
    SourceParts(src);
    TargetParts(tgt);
    var centralDirectory := CentralDirectory(src);
    var used := new RangeSet();
    NothingCovered();
    used.InsertBytes(centralDirectory.start, centralDirectory.len);
    CdRange(centralDirectory);
    WorkStarts(tgt, src, used.ranges_);
    var srcRanges := new RangeSet();
    var srcChunks: seq<ImageChunk>, tgtChunks: seq<ImageChunk> := [], [];
    ghost var w := Work(0, 0, used.ranges_, [], [], [], [], [], []);
    froms := [0];
    NonePlaced(tgt, src, w);
    var i := 0;
    while i < |tgt.chunks|
      invariant 0 <= i <= |tgt.chunks| && Mirrors(w, used, srcRanges) && Working(tgt, src, w)
      invariant AllPlaced(tgt, src, w, froms)
      invariant fresh(used) && fresh(srcRanges) && used != srcRanges
      invariant w.i == i && w.srcChunks == srcChunks && w.tgtChunks == tgtChunks
      invariant w.tgts == tgts && w.srcs == srcs && w.ranges == ranges
      invariant (i == 0 ==> srcRanges.ranges_ == []) && (i == |tgt.chunks| ==> tgtChunks != [])
      decreases |tgt.chunks| - i, if srcRanges.ranges_ != [] then 1 else 0
    {
      WorkFacts(tgt, src, w);
      ghost var w0 := w;
      var t := tgt.chunks[i];
      var found := FindChunkByName(src.chunks, t.name, true);
      if found.None? {
        AddPlain(tgt, src, w);
        tgtChunks := tgtChunks + [NormalChunk(t.start, t.len)];
        w := w.(i := i + 1, tgtChunks := tgtChunks);
        UnmatchedPlaced(tgt, src, w0, w, froms, NormalChunk(t.start, t.len));
        i := i + 1;
        continue;
      }
      var d := src.chunks[found.value];
      MatchFits(tgt, src, i, found.value);
      FoundIsFirst(src, t, found.value);
      var ok, srcOffset, srcLength := RemoveUsedBlocks(d.start, d.len, used);
      if !ok {
        AddPlain(tgt, src, w);
        tgtChunks := tgtChunks + [NormalChunk(t.start, t.len)];
        w := w.(i := i + 1, tgtChunks := tgtChunks);
        UsedPlaced(tgt, src, w0, w, froms, NormalChunk(t.start, t.len), found.value);
      } else if srcRanges.blocks_ * BLOCK_SIZE + srcLength <= src.limit {
        ghost var before := w;
        srcRanges.InsertBytes(srcOffset, srcLength);
        var c := NormalChunk(t.start, t.len);
        // The source chunk is usable only if it has not been trimmed.
        if d.kind.Deflate? && srcLength == d.len {
          srcChunks := srcChunks + [d];
          c := t;
        }
        AddMatched(tgt, src, before, d, srcOffset, srcLength, srcRanges.ranges_, c, srcChunks);
        tgtChunks := tgtChunks + [c];
        w := w.(i := i + 1, srcRanges := srcRanges.ranges_, srcChunks := srcChunks, tgtChunks := tgtChunks);
        if srcLength == d.len {
          ServedPlaced(tgt, src, w0, w, froms, c, found.value);
        } else {
          UsedPlaced(tgt, src, w0, w, froms, c, found.value);
        }
      } else {
        assert srcRanges.ranges_ != [];
        var added, image, source := AddSplitImage(tgt, src, w, srcRanges.ranges_, tgtChunks, srcChunks);
        ghost var before := w;
        tgtChunks, srcChunks := [], [];
        if added {
          tgts, srcs, ranges := tgts + [image], srcs + [source], ranges + [srcRanges.ranges_];
          CanonicalNonEmpty(srcRanges.ranges_);
          used.Insert(srcRanges.ranges_);
        }
        WorkCloses(tgt, src, before, added, used.ranges_, image, source);
        w := Closed(tgt, before, added, used.ranges_, image, source);
        PieceCloses(tgt, src, before, froms, added, used.ranges_, image, source);
        froms := NextFroms(tgt, before, froms, added);
        srcRanges.Clear();
        // Start a new piece and handle this chunk there: the iterator is stepped back.
        assert i > 0;
        i := i - 1;
      }
      i := i + 1;
    }
    tgts, srcs, ranges, froms := FinishSplit(tgt, src, w, froms, srcRanges, tgtChunks, srcChunks, tgts, srcs, ranges);
    valid := ValidateSplitImages(tgt, src, tgts, srcs, ranges, |tgt.file|);
  }

  /** The last piece has the central directory too. */
  method FinishSplit(tgt: Zip, src: Zip, ghost w: Work, ghost froms0: seq<nat>, srcRanges: RangeSet,
                     tgtChunks: seq<ImageChunk>, srcChunks: seq<ImageChunk>, tgts0: seq<seq<ImageChunk>>,
                     srcs0: seq<SourceImage>, ranges0: seq<seq<Range>>)
    returns (tgts: seq<seq<ImageChunk>>, srcs: seq<SourceImage>, ranges: seq<seq<Range>>, ghost froms: seq<nat>)
    requires TargetOk(tgt) && SourceOk(src) && Working(tgt, src, w) && AllPlaced(tgt, src, w, froms0)
    requires w.i == |tgt.chunks| && w.tgtChunks == tgtChunks != [] && w.srcChunks == srcChunks
    requires w.tgts == tgts0 && w.srcs == srcs0 && w.ranges == ranges0
    requires srcRanges.Valid() && w.srcRanges == srcRanges.ranges_
    modifies srcRanges
    ensures SplitOk(tgt, src, tgts, srcs, ranges)
    ensures FromsOk(tgts, froms) && SourcesGiven(tgt, src, tgts, srcs, ranges, froms)
  {
    hide TargetOk, SourceOk, Working, TargetSide, SourceSide, PiecesOk, PieceOk, SplitOk, Covers, Canonical, Total,
    Tiles,
      AlignUp, ChunkBlocks, InFile, ByteRange, Housed, Pos, AllPlaced, KeepsAfter, FromsOk, SourcesGiven;
    tgts, srcs, ranges := tgts0, srcs0, ranges0;
    SourceParts(src);
    var centralDirectory := CentralDirectory(src);
    CdRange(centralDirectory);
    WorkFacts(tgt, src, w);
    srcRanges.InsertBytes(centralDirectory.start, centralDirectory.len);
    WorkSides(tgt, src, w);
    FinalRanges(src, w, srcRanges.ranges_);
    var added, image, source := AddSplitImage(tgt, src, w, srcRanges.ranges_, tgtChunks, srcChunks);
    FinalSplit(tgt, src, w, added, image, source, srcRanges.ranges_);
    SplitCloses(tgt, src, w, froms0, added, srcRanges.ranges_, image, source);
    FromsAtEnd(tgt, src, w, froms0, added, image);
    froms := NextFroms(tgt, w, froms0, added);
    if added {
      tgts, srcs, ranges := tgts + [image], srcs + [source], ranges + [srcRanges.ranges_];
    }
  }
}
