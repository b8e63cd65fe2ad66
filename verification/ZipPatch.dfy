/** Patches for the pieces of a split zip: each is applied to the packed source blocks of its piece,
    and together they make the target. */
module ZipPatch {
  import opened Basics
  import opened RangeSets
  import opened ImageChunks
  import opened ImagePatch
  import opened SplitImages

  /** A line of the split info: patch size, target size and source blocks of a piece. */
  datatype SplitInfo = SplitInfo(patchSize: nat, tgtSize: nat, ranges: seq<Range>)

  /** What preparing the chunks leaves: a deflate target can be reproduced, a deflate source is genuine. */
  ghost predicate Prepared(codec: Codec, tgt: Zip, src: Zip) {
    && (forall c :: c in tgt.chunks ==> c.level <= 9 && Reproducible(codec, tgt.file, c))
    && (forall c :: c in src.chunks ==> Genuine(codec, src.file, c))
  }

  function PatchSize(p: PatchChunk): nat {
    if p.kind.Raw? then HeaderSize(p) else HeaderSize(p) + |p.data|
  }

  function PatchSizes(ps: seq<PatchChunk>): nat {
    if ps == [] then 0 else PatchSizes(ps[..|ps| - 1]) + PatchSize(ps[|ps| - 1])
  }

  lemma {:induction false} PatchSizesSplit(ps: seq<PatchChunk>)
    ensures PatchSizes(ps) == HeaderSizes(ps) + |Bodies(ps)|
  {
    if ps != [] {
      var n := |ps| - 1;
      PatchSizesSplit(ps[..n]);
      BodiesSnoc(ps[..n], ps[n]);
      assert ps == ps[..n] + [ps[n]];
    }
  }

  /** The size in the split info is that of the container. */
  lemma ContainerLength(ps: seq<PatchChunk>)
    ensures |Container(ps)| == 12 + PatchSizes(ps)
  {
    hide PatchSizes, HeaderSizes, Bodies, Headers;
    PatchSizesSplit(ps);
    HeadersLength(ps, 12 + HeaderSizes(ps));
  }

  /** The whole of a packed piece as one normal chunk. */
  function PseudoSource(content: seq<byte>): ImageChunk {
    NormalChunk(0, |content|)
  }

  /** UpdateSourceOffset: an offset that is not in the ranges aborts. */
  method UpdateSourceOffset(p: PatchChunk, rs: RangeSet) returns (r: Option<PatchChunk>)
    requires rs.Valid() && Canonical(rs.ranges_)
    ensures r == Relocated(p, rs.ranges_)
  {
    if !p.kind.Deflate? { return Some(p); }
    var o := rs.GetOffsetInRangeSet(p.sourceStart);
    return if o.None? then None else Some(p.(sourceStart := o.value));
  }

  function Relocated(p: PatchChunk, rs: seq<Range>): Option<PatchChunk> {
    if !p.kind.Deflate? then Some(p)
    else
      var o := OffsetInRangeSet(rs, p.sourceStart);
      if o.None? then None else Some(p.(sourceStart := o.value))
  }

  /** Before relocation: deflate chunks refer to the whole source file, the others to the packed one. */
  ghost predicate MakesUnpacked(codec: Codec, src: Zip, rs: seq<Range>, content: seq<byte>, p: PatchChunk, x: Piece) {
    if p.kind.Deflate? then
      && Makes(codec, src.file, p, x, []) && 0 < p.sourceLen
      && forall b :: p.sourceStart / BLOCK_SIZE <= b <= (p.sourceStart + p.sourceLen - 1) / BLOCK_SIZE ==> Covers(rs, b)
    else Makes(codec, content, p, x, [])
  }

  /** Relocation never aborts, and makes the patch one of the packed content. */
  lemma RelocatedMakes(codec: Codec, src: Zip, rs: seq<Range>, content: seq<byte>, p: PatchChunk, x: Piece)
    requires MakesUnpacked(codec, src, rs, content, p, x)
    requires Canonical(rs) && Packable(src.file, rs) && content == Pack(src.file, rs)
    ensures var r := Relocated(p, rs);
            && r.Some? && Makes(codec, content, r.value, x, []) && PatchSize(r.value) == PatchSize(p)
  {
    hide Pack, OffsetInRangeSet, Canonical, ExpandedSource;
    if p.kind.Deflate? {
      var o := Relocation(src.file, rs, p.sourceStart, p.sourceLen);
    }
  }

  ghost predicate FirstNamed(chunks: seq<ImageChunk>, name: string, j: nat) {
    j < |chunks| && NameMatches(chunks[j], name, false) && forall i :: 0 <= i < j ==>
      !NameMatches(chunks[i], name, false)
  }

  /** bsdiff does not fail on a chunk of a piece, unless the chunk is stored without being asked about:
      a deflate chunk is diffed against its source, any other against the whole packed piece. */
  ghost predicate ChunkDiffable(codec: Codec, tgt: Zip, source: SourceImage, c: ImageChunk) {
    && End(c) <= |tgt.file|
    && (RawDataIsSmaller(c, 0)
        || (c.kind.Deflate? && forall j: nat :: FirstNamed(source.chunks, c.name, j) ==>
          codec.bsdiff(source.chunks[j].data, c.data).Some?)
        || (!c.kind.Deflate? && codec.bsdiff(source.content, RawData(c, tgt.file)).Some?))
  }

  ghost predicate PieceDiffable(codec: Codec, tgt: Zip, source: SourceImage, image: seq<ImageChunk>) {
    forall i :: 0 <= i < |image| ==> ChunkDiffable(codec, tgt, source, image[i])
  }

  ghost predicate SplitDiffable(codec: Codec, tgt: Zip, srcs: seq<SourceImage>, tgts: seq<seq<ImageChunk>>) {
    |srcs| == |tgts| && forall k :: 0 <= k < |tgts| ==> PieceDiffable(codec, tgt, srcs[k], tgts[k])
  }

  lemma NormalPatchFor(c: ImageChunk, tgt: Zip, content: seq<byte>, data: seq<byte>, sources: seq<ImageChunk>)
    requires c.kind.Normal? && End(c) <= |tgt.file|
    ensures PatchFor(c, RawPatch(c, tgt.file), sources)
    ensures PatchFor(c, DiffPatch(c, tgt.file, PseudoSource(content), content, data), sources)
  {
  }

  lemma DeflatePatchFor(codec: Codec, tgt: Zip, src: Zip, c: ImageChunk, d: ImageChunk, data: seq<byte>)
    requires Prepared(codec, tgt, src) && c in tgt.chunks && c.kind.Deflate? && End(c) <= |tgt.file|
    requires d in src.chunks && d.kind.Deflate? && End(d) <= |src.file|
    ensures PatchFor(c, DiffPatch(c, tgt.file, d, src.file, data), src.chunks)
  {
  }

  /** A normal chunk is stored as it is exactly if it is short or its patch is longer than it is. */
  ghost predicate StoredRaw(codec: Codec, tgt: Zip, content: seq<byte>, c: ImageChunk, p: PatchChunk)
    requires End(c) <= |tgt.file|
  {
    var data := codec.bsdiff(content, tgt.file[c.start..c.start + c.len]);
    p.kind.Raw? <==> c.kind.Normal? && (c.len <= 160 || (data.Some? && c.len < |data.value|))
  }

  /** One target chunk of a piece. */
  method MakeChunkPatch(codec: Codec, tgt: Zip, src: Zip, image: seq<ImageChunk>, source: SourceImage, rs: seq<Range>,
                        c: ImageChunk)
    returns (p: Option<PatchChunk>, ghost x: Piece)
    requires PieceOk(tgt, src, image, source, rs) && c in image && End(c) <= |tgt.file|
    requires Prepared(codec, tgt, src) && LawfulInflate(codec)
    ensures p.Some? ==> MakesUnpacked(codec, src, rs, source.content, p.value, x) && x.raw == RawData(c, tgt.file)
    ensures p.Some? ==> PatchFor(c, p.value, src.chunks)
    ensures p.Some? <==> ChunkDiffable(codec, tgt, source, c)
    ensures p.Some? ==> StoredRaw(codec, tgt, source.content, c, p.value)
  {
    hide LawfulInflate, Canonical, InFile, Packable, Pack, Makes, PatchFor;
    var content := source.content;
    x := Piece(RawData(c, tgt.file), DataForPatch(c, tgt.file), content);
    if RawDataIsSmaller(c, 0) {
      NormalPatchFor(c, tgt, content, [], src.chunks);
      RawChunkMakes(codec, content, c, tgt.file, x);
      return Some(RawPatch(c, tgt.file)), x;
    }
    var found := None;
    if c.kind.Deflate? { found := FindChunkByName(source.chunks, c.name, false); }
    if found.None? {
      NotDeflate(tgt, src, image, source, rs, c);
      var ref := PseudoSource(content);
      var data := codec.bsdiff(content, RawData(c, tgt.file));
      if data.None? { return None, x; }
      PseudoMakes(codec, content, c, tgt.file, data.value, x);
      NormalPatchFor(c, tgt, content, data.value, src.chunks);
      if RawDataIsSmaller(c, |data.value|) {
        RawChunkMakes(codec, content, c, tgt.file, x);
        return Some(RawPatch(c, tgt.file)), x;
      }
      assert content[0..|content|] == content;
      return Some(DiffPatch(c, tgt.file, ref, content, data.value)), x;
    }
    var d := source.chunks[found.value];
    assert d in source.chunks && FirstNamed(source.chunks, c.name, found.value);
    x := Piece(RawData(c, tgt.file), c.data, d.data);
    var data := codec.bsdiff(d.data, c.data);
    if data.None? { return None, x; }
    DeflateMakes(codec, tgt, src, rs, c, d, data.value, x, content);
    DeflatePatchFor(codec, tgt, src, c, d, data.value);
    return Some(DiffPatch(c, tgt.file, d, src.file, data.value)), x;
  }

  lemma RawChunkMakes(codec: Codec, content: seq<byte>, c: ImageChunk, tfile: seq<byte>, x: Piece)
    requires End(c) <= |tfile| && c.kind.Normal? && x.raw == RawData(c, tfile)
    ensures Makes(codec, content, RawPatch(c, tfile), x, []) && !RawPatch(c, tfile).kind.Deflate?
  {
  }

  lemma PseudoMakes(codec: Codec, content: seq<byte>, c: ImageChunk, tfile: seq<byte>, data: seq<byte>, x: Piece)
    requires End(c) <= |tfile| && c.kind.Normal? && x.raw == RawData(c, tfile)
    requires codec.bsdiff(content, RawData(c, tfile)) == Some(data)
    ensures Makes(codec, content, DiffPatch(c, tfile, PseudoSource(content), content, data), x, [])
  {
    assert content[0..|content|] == content;
  }

  lemma NotDeflate(tgt: Zip, src: Zip, image: seq<ImageChunk>, source: SourceImage, rs: seq<Range>, c: ImageChunk)
    requires PieceOk(tgt, src, image, source, rs) && c in image
    requires c.kind.Deflate? ==> c.name == "" || forall j :: 0 <= j < |source.chunks| ==>
               !NameMatches(source.chunks[j], c.name, false)
    ensures c.kind.Normal?
  {
    hide NameMatches, Housed, InFile, Packable, Pack, Canonical;
    if forall j :: 0 <= j < |source.chunks| ==> !NameMatches(source.chunks[j], c.name, false) {
      forall d | d in source.chunks ensures !NameMatches(d, c.name, false) {
        var j :| 0 <= j < |source.chunks| && source.chunks[j] == d;
      }
    }
  }

  lemma DeflateMakes(codec: Codec, tgt: Zip, src: Zip, rs: seq<Range>, c: ImageChunk, d: ImageChunk, data: seq<byte>,
                     x: Piece, content: seq<byte>)
    requires Prepared(codec, tgt, src) && LawfulInflate(codec) && c in tgt.chunks && c.kind.Deflate?
             && End(c) <= |tgt.file|
    requires d in src.chunks && d.kind.Deflate? && 0 < d.len && End(d) <= |src.file| && CoversChunk(rs, d)
    requires codec.bsdiff(d.data, c.data) == Some(data) && x == Piece(RawData(c, tgt.file), c.data, d.data)
    ensures MakesUnpacked(codec, src, rs, content, DiffPatch(c, tgt.file, d, src.file, data), x)
  {
    hide LawfulInflate, CoversChunk, Makes, Reproducible;
    assert Reproducible(codec, tgt.file, c) && Genuine(codec, src.file, d);
    assert d.data + [] == d.data;
    DiffMakes(codec, tgt.file, c, src.file, d, [], data);
    CoversBlocks(rs, d);
  }

  lemma RelocatedFor(c: ImageChunk, p: PatchChunk, sources: seq<ImageChunk>, rs: seq<Range>)
    requires PatchFor(c, p, sources)
    ensures var r := Relocated(p, rs); r.Some? ==> PatchFor(c, r.value, sources)
  {
    hide OffsetInRangeSet;
  }

  lemma CoversBlocks(rs: seq<Range>, d: ImageChunk)
    requires CoversChunk(rs, d)
    ensures forall b :: d.start / BLOCK_SIZE <= b <= (d.start + d.len - 1) / BLOCK_SIZE ==> Covers(rs, b)
  {
  }

  ghost predicate MakesUnpackedAll(codec: Codec, src: Zip, rs: seq<Range>, content: seq<byte>, ps: seq<PatchChunk>,
                                   xs: seq<Piece>) {
    |ps| == |xs| && forall j :: 0 <= j < |ps| ==> MakesUnpacked(codec, src, rs, content, ps[j], xs[j])
  }

  lemma PieceChunk(codec: Codec, tgt: Zip, src: Zip, image: seq<ImageChunk>, source: SourceImage, rs: seq<Range>,
                   from: nat, to: nat, i: nat)
    requires PieceOk(tgt, src, image, source, rs) && Tiles(image, from, to) && to <= |tgt.file| && i < |image|
    ensures End(image[i]) <= |tgt.file| && image[i] in image
  {
    TilesBounds(image, from, to, i);
  }

  /** GeneratePatchesInternal for one piece. */
  method GeneratePiece(codec: Codec, tgt: Zip, src: Zip, image: seq<ImageChunk>, source: SourceImage, rs: seq<Range>,
                       ghost from: nat, ghost to: nat)
    returns (ps: Option<seq<PatchChunk>>, ghost xs: seq<Piece>)
    requires PieceOk(tgt, src, image, source, rs) && Tiles(image, from, to) && to <= |tgt.file|
    requires Prepared(codec, tgt, src) && LawfulInflate(codec)
    ensures ps.Some? ==> |xs| == |image| && PiecesOf(tgt.file, image, xs)
                         && MakesUnpackedAll(codec, src, rs, source.content, ps.value, xs)
    ensures ps.Some? ==> PatchesFor(image, ps.value, src.chunks)
    ensures ps.Some? <==> PieceDiffable(codec, tgt, source, image)
  {
    hide PieceOk, Prepared, LawfulInflate, Tiles, PiecesOf, MakesUnpacked, PatchFor, PatchesFor, ChunkDiffable;
    var patchChunks, i := [], 0;
    xs := [];
    NoPieces(codec, tgt.file, image, source.content, [], src.chunks);
    while i < |image|
      invariant 0 <= i <= |image| && |xs| == |patchChunks| == i && PiecesOf(tgt.file, image, xs)
      invariant MakesUnpackedAll(codec, src, rs, source.content, patchChunks, xs)
      invariant PatchesFor(image, patchChunks, src.chunks)
      invariant forall j :: 0 <= j < i ==> ChunkDiffable(codec, tgt, source, image[j])
    {
      PieceChunk(codec, tgt, src, image, source, rs, from, to, i);
      var p;
      ghost var x;
      p, x := MakeChunkPatch(codec, tgt, src, image, source, rs, image[i]);
      if p.None? { return None, xs; }
      PiecesSnoc(tgt.file, image, xs, x);
      PatchesForSnoc(image, patchChunks, src.chunks, p.value);
      patchChunks, xs := patchChunks + [p.value], xs + [x];
      i := i + 1;
    }
    return Some(patchChunks), xs;
  }

  /** A piece's patch: made for the packed source, with the pieces of the target it makes. */
  ghost predicate PieceMade(codec: Codec, tgt: Zip, src: Zip, content: seq<byte>, image: seq<ImageChunk>,
                            ps: seq<PatchChunk>, xs: seq<Piece>) {
    |xs| == |image| && PiecesOf(tgt.file, image, xs) && MakesAll(codec, content, ps, xs, 0, [])
    && PatchesFor(image, ps, src.chunks)
  }

  /** Relocate every chunk of a piece's patch and add up its size. */
  method RelocateAll(codec: Codec, src: Zip, rs: seq<Range>, content: seq<byte>, ghost image: seq<ImageChunk>,
                     ps0: seq<PatchChunk>, ghost xs: seq<Piece>)
    returns (ps: seq<PatchChunk>, totalPatchSize: nat)
    requires MakesUnpackedAll(codec, src, rs, content, ps0, xs) && PatchesFor(image, ps0, src.chunks)
    requires Canonical(rs) && Packable(src.file, rs) && content == Pack(src.file, rs) && Total(rs) < SIZE_MAX
    ensures MakesAll(codec, content, ps, xs, 0, []) && totalPatchSize == |Container(ps)|
    ensures PatchesFor(image, ps, src.chunks)
  {
    hide MakesUnpacked, PatchFor, Canonical, Packable, Pack, Makes, Container, Relocated, HeaderSize, OffsetInRangeSet,
      Total;
    CanonicalNonEmpty(rs);
    var rangeSet := new RangeSet.FromPairs(rs);
    ps, totalPatchSize := [], 12;
    var i := 0;
    while i < |ps0|
      invariant 0 <= i <= |ps0| && |ps| == i && totalPatchSize == 12 + PatchSizes(ps)
      invariant forall j :: 0 <= j < i ==>
                  Makes(codec, content, ps[j], xs[j], []) && PatchFor(image[j], ps[j], src.chunks)
      invariant rangeSet.Valid() && rangeSet.ranges_ == rs
    {
      RelocatedMakes(codec, src, rs, content, ps0[i], xs[i]);
      assert PatchFor(image[i], ps0[i], src.chunks);
      RelocatedFor(image[i], ps0[i], src.chunks, rs);
      var r := UpdateSourceOffset(ps0[i], rangeSet);
      ghost var before := ps;
      ps := ps + [r.value];
      assert ps[..i] == before;
      totalPatchSize := totalPatchSize + PatchSize(r.value);
      i := i + 1;
    }
    ContainerLength(ps);
  }

  // ---------- the whole file ----------

  /** What a reader of the split info makes of the patch file: piece after piece, each from its packed
      source blocks. */
  function ApplySplit(codec: Codec, sfile: seq<byte>, patchFile: seq<byte>, info: seq<SplitInfo>): Option<seq<byte>>
    decreases |info|
  {
    if info == [] then Some([])
    else
      var n := |info| - 1;
      var last := info[n];
      if last.patchSize > |patchFile| || !CanPack(sfile, last.ranges) then None
      else
        var cut := |patchFile| - last.patchSize;
        var front := ApplySplit(codec, sfile, patchFile[..cut], info[..n]);
        var back := ApplyPatch(codec, Pack(sfile, last.ranges), patchFile[cut..], []);
        if front.None? || back.None? || |back.value| != last.tgtSize then None else Some(front.value + back.value)
  }

  predicate CanPack(sfile: seq<byte>, rs: seq<Range>)
    ensures CanPack(sfile, rs) <==> Packable(sfile, rs)
  {
    forall i :: 0 <= i < |rs| ==> rs[i].first < rs[i].second && rs[i].first * BLOCK_SIZE <= |sfile|
  }

  /** No deflate chunk that the split keeps inflates to nothing. */
  ghost predicate NoEmptyStreams(tgts: seq<seq<ImageChunk>>) {
    forall k :: 0 <= k < |tgts| ==> NoEmptyStream(tgts[k])
  }

  /** The sizes with which the numbers of a patch file fit their fields. */
  ghost predicate SizesFit(tgt: Zip, src: Zip, patchSize: nat) {
    |tgt.file| < W4 / 2 && patchSize < 8 * (W4 / 2) && DataFits(tgt.chunks) && DataFits(src.chunks)
  }

  /** The patches of the first pieces, as containers one after the other. */
  ghost predicate Generated(codec: Codec, tgt: Zip, src: Zip, tgts: seq<seq<ImageChunk>>, patchFile: seq<byte>,
                            info: seq<SplitInfo>) {
    && |info| <= |tgts|
    && (SizesFit(tgt, src, |patchFile|) ==>
          ApplySplit(codec, src.file, patchFile, info) ==
          if NoEmptyStreams(tgts[..|info|]) then Some(tgt.file[..Min(|tgt.file|, PieceStart(tgts, |tgt.file|, |info|))])
          else None)
  }

  lemma NoEmptyStreamsSnoc(tgts: seq<seq<ImageChunk>>, k: nat)
    requires k < |tgts|
    ensures NoEmptyStreams(tgts[..k + 1]) <==> NoEmptyStreams(tgts[..k]) && NoEmptyStream(tgts[k])
  {
    hide NoEmptyStream;
    var more := tgts[..k + 1];
    if NoEmptyStreams(more) {
      assert more[k] == tgts[k];
      forall j | 0 <= j < k ensures NoEmptyStream(tgts[..k][j]) { assert more[j] == tgts[..k][j]; }
    }
  }

  lemma ApplySplitSnoc(codec: Codec, sfile: seq<byte>, patchFile: seq<byte>, info: seq<SplitInfo>, container: seq<byte>,
                       line: SplitInfo)
    requires line.patchSize == |container| && Packable(sfile, line.ranges)
    ensures ApplySplit(codec, sfile, patchFile + container, info + [line]) ==
            var front, back := ApplySplit(codec, sfile, patchFile, info),
              ApplyPatch(codec, Pack(sfile, line.ranges), container, []);
            if front.None? || back.None? || |back.value| != line.tgtSize then None else Some(front.value + back.value)
  {
    hide ApplyPatch, Pack, Packable;
    var all, file := info + [line], patchFile + container;
    assert all[..|all| - 1] == info;
    assert file[..|file| - |container|] == patchFile && file[|file| - |container|..] == container;
  }

  lemma PieceGenerated(codec: Codec, tgt: Zip, src: Zip, tgts: seq<seq<ImageChunk>>, patchFile: seq<byte>,
                       info: seq<SplitInfo>,
                       ps: seq<PatchChunk>, xs: seq<Piece>, line: SplitInfo, from: nat, to: nat)
    requires Generated(codec, tgt, src, tgts, patchFile, info) && |info| < |tgts| && LawfulDiff(codec)
             && |src.file| < SIZE_MAX
    requires from == PieceStart(tgts, |tgt.file|, |info|) && to == PieceStart(tgts, |tgt.file|, |info| + 1)
    requires Tiles(tgts[|info|], from, to) && from <= to <= |tgt.file| && DeflatesFrom(tgts[|info|], tgt.chunks)
    requires Packable(src.file, line.ranges) && Canonical(line.ranges)
    requires PieceMade(codec, tgt, src, Pack(src.file, line.ranges), tgts[|info|], ps, xs)
    requires line.patchSize == |Container(ps)| && line.tgtSize == to - from
    ensures Generated(codec, tgt, src, tgts, patchFile + Container(ps), info + [line])
  {
    hide ApplySplit, ApplyPatch, NoEmptyStreams, NoEmptyStream, AllFit, FinishesAll, Tiles, PiecesOf, MakesAll, Pack,
    Packable,
      Canonical, LawfulDiff, Container, PieceStart, PatchesFor, DataFits, DeflatesFrom;
    var image := tgts[|info|];
    NoEmptyStreamsSnoc(tgts, |info|);
    ApplySplitSnoc(codec, src.file, patchFile, info, Container(ps), line);
    PieceCounts(codec, Pack(src.file, line.ranges), ps, xs);
    NoEmptyStreamMeans(image, ps, src.chunks);
    if SizesFit(tgt, src, |patchFile + Container(ps)|) {
      assert SizesFit(tgt, src, |patchFile|);
      DataFitsFrom(image, tgt.chunks);
      PackLength(src.file, line.ranges);
      PatchesFit(codec, Pack(src.file, line.ranges), ps, xs, [], tgt.file, image, src.chunks);
      RoundTrip(codec, Pack(src.file, line.ranges), ps, xs, []);
      PiecesAreFile(tgt.file, image, xs, from, to);
      assert |tgt.file[from..to]| == to - from;
      assert tgt.file[..from] + tgt.file[from..to] == tgt.file[..to];
    }
  }

  lemma PieceCounts(codec: Codec, content: seq<byte>, ps: seq<PatchChunk>, xs: seq<Piece>)
    requires MakesAll(codec, content, ps, xs, 0, [])
    ensures |ps| == |xs|
  {
  }

  lemma DataFitsFrom(cs: seq<ImageChunk>, all: seq<ImageChunk>)
    requires DeflatesFrom(cs, all) && DataFits(all)
    ensures DataFits(cs)
  {
  }

  lemma PieceAt(tgt: Zip, src: Zip, tgts: seq<seq<ImageChunk>>, srcs: seq<SourceImage>, ranges: seq<seq<Range>>, k: nat)
    requires SplitOk(tgt, src, tgts, srcs, ranges) && k < |tgts|
    ensures PieceOk(tgt, src, tgts[k], srcs[k], ranges[k]) && tgts[k] != []
            && tgts[k][0].start == PieceStart(tgts, |tgt.file|, k)
    ensures Tiles(tgts[k], PieceStart(tgts, |tgt.file|, k), PieceStart(tgts, |tgt.file|, k + 1))
    ensures PieceStart(tgts, |tgt.file|, k) <= PieceStart(tgts, |tgt.file|, k + 1) <= |tgt.file|
    ensures End(tgts[k][|tgts[k]| - 1]) == PieceStart(tgts, |tgt.file|, k + 1)
  {
    hide PieceOk, PairwiseApart, WithinLimit, LastWithinLimit, PiecesCover, Tiles;
    CoverPrefix(tgts, |tgt.file|, k);
    StartsGrow(tgts, |tgt.file|, k + 1);
    TilesLast(tgts[k], tgts[k][0].start, PieceStart(tgts, |tgt.file|, k + 1));
    TilesBounds(tgts[k], tgts[k][0].start, PieceStart(tgts, |tgt.file|, k + 1), 0);
  }

  lemma {:induction false} StartsGrow(images: seq<seq<ImageChunk>>, to: nat, k: nat)
    requires PiecesCover(images, to) && k <= |images|
    ensures PieceStart(images, to, k) <= to
    decreases |images| - k
  {
    hide PiecesCover, Tiles;
    if k < |images| {
      CoverPrefix(images, to, k);
      StartsGrow(images, to, k + 1);
      TilesBounds(images[k], images[k][0].start, PieceStart(images, to, k + 1), 0);
    }
  }

  /** The packed ranges of a piece are few enough to be a range set. */
  lemma RangesFit(src: Zip, rs: seq<Range>)
    requires Canonical(rs) && InFile(rs, |src.file|) && |src.file| < SIZE_MAX
    ensures Total(rs) < SIZE_MAX
  {
    var limit := (|src.file| + BLOCK_SIZE - 1) / BLOCK_SIZE;
    forall i | 0 <= i < |rs| ensures rs[i].second <= limit {
      assert Covers(rs, rs[i].second - 1);
    }
    CanonicalBound(rs, limit);
  }

  /** GeneratePatches for a split.  A patch file comes out exactly when bsdiff does not fail on what it
      is asked about; read with its split info it makes the target from the source, exactly when no
      deflate chunk of the pieces inflates to nothing. */
  method GenerateSplitPatches(codec: Codec, tgt: Zip, src: Zip, tgts: seq<seq<ImageChunk>>, srcs: seq<SourceImage>,
                              ranges: seq<seq<Range>>)
    returns (patchFile: Option<seq<byte>>, info: seq<SplitInfo>)
    requires Lawful(codec) && SplitOk(tgt, src, tgts, srcs, ranges) && Prepared(codec, tgt, src)
             && |src.file| < SIZE_MAX
    ensures patchFile.Some? <==> SplitDiffable(codec, tgt, srcs, tgts)
    ensures patchFile.Some? && SizesFit(tgt, src, |patchFile.value|) ==>
              ApplySplit(codec, src.file, patchFile.value, info) == if NoEmptyStreams(tgts) then Some(tgt.file)
              else None
  {
    hide Lawful, TargetOk, SourceOk, MatchesFit, Prepared, SplitOk, PieceOk, Generated, NoEmptyStreams, PieceStart,
    Tiles,
      LawfulInflate, LawfulDiff, Container, PiecesOf, MakesAll, MakesUnpackedAll, Pack, Packable, Canonical, InFile,
      PieceMade,
      PatchesFor, PieceDiffable, SizesFit, DeflatesFrom;
    LawfulParts(codec);
    info := [];
    var out, k := [], 0;
    SplitSizes(tgt, src, tgts, srcs, ranges);
    GeneratedStarts(codec, tgt, src, tgts, srcs, ranges);
    while k < |tgts|
      invariant 0 <= k <= |tgts| && |info| == k && Generated(codec, tgt, src, tgts, out, info)
      invariant forall j :: 0 <= j < k ==> PieceDiffable(codec, tgt, srcs[j], tgts[j])
    {
      PieceAt(tgt, src, tgts, srcs, ranges, k);
      PieceParts(tgt, src, tgts[k], srcs[k], ranges[k]);
      ghost var from, to := PieceStart(tgts, |tgt.file|, k), PieceStart(tgts, |tgt.file|, k + 1);
      var ps0;
      ghost var xs;
      ps0, xs := GeneratePiece(codec, tgt, src, tgts[k], srcs[k], ranges[k], from, to);
      if ps0.None? { return None, info; }
      RangesFit(src, ranges[k]);
      var ps, totalPatchSize := RelocateAll(codec, src, ranges[k], srcs[k].content, tgts[k], ps0.value, xs);
      var container := WritePatchDataToFd(ps);
      var last := tgts[k][|tgts[k]| - 1];
      var splitTgtSize := last.start + last.len - tgts[k][0].start;
      var line := SplitInfo(totalPatchSize, splitTgtSize, ranges[k]);
      PieceIsMade(codec, tgt, src, srcs[k].content, tgts[k], ps, xs);
      PieceGenerated(codec, tgt, src, tgts, out, info, ps, xs, line, from, to);
      out, info := out + container, info + [line];
      k := k + 1;
    }
    GeneratedEnds(codec, tgt, src, tgts, out, info);
    return Some(out), info;
  }

  /** imgdiff in zip mode with a block limit: split, and make the patches of the pieces. */
  method Imgdiff(codec: Codec, tgt: Zip, src: Zip)
    returns (patchFile: Option<seq<byte>>, info: seq<SplitInfo>, tgts: seq<seq<ImageChunk>>, srcs: seq<SourceImage>,
      ranges: seq<seq<Range>>, ghost froms: seq<nat>)
    requires Lawful(codec) && TargetOk(tgt) && SourceOk(src) && MatchesFit(tgt, src) && tgt.limit == src.limit
    requires Prepared(codec, tgt, src) && |src.file| < SIZE_MAX
    ensures SplitOk(tgt, src, tgts, srcs, ranges)
    ensures FromsOk(tgts, froms) && SourcesGiven(tgt, src, tgts, srcs, ranges, froms)
    ensures patchFile.Some? <==> SplitDiffable(codec, tgt, srcs, tgts)
    ensures patchFile.Some? && SizesFit(tgt, src, |patchFile.value|) ==>
              ApplySplit(codec, src.file, patchFile.value, info) == if NoEmptyStreams(tgts) then Some(tgt.file)
              else None
    ensures NoEmptyStream(tgt.chunks) ==> NoEmptyStreams(tgts)
  {
    hide Lawful, TargetOk, SourceOk, MatchesFit, Prepared, SplitOk, NoEmptyStreams, NoEmptyStream, SizesFit,
      SplitDiffable, FromsOk, SourcesGiven;
    var valid;
    tgts, srcs, ranges, valid, froms := SplitZipModeImageWithLimit(tgt, src);
    if NoEmptyStream(tgt.chunks) { KeptStreams(tgt, src, tgts, srcs, ranges); }
    patchFile, info := GenerateSplitPatches(codec, tgt, src, tgts, srcs, ranges);
  }

  lemma SplitSizes(tgt: Zip, src: Zip, tgts: seq<seq<ImageChunk>>, srcs: seq<SourceImage>, ranges: seq<seq<Range>>)
    requires SplitOk(tgt, src, tgts, srcs, ranges)
    ensures |tgts| == |srcs| == |ranges|
  {
  }

  lemma PieceParts(tgt: Zip, src: Zip, image: seq<ImageChunk>, source: SourceImage, rs: seq<Range>)
    requires PieceOk(tgt, src, image, source, rs)
    ensures Canonical(rs) && InFile(rs, |src.file|) && Packable(src.file, rs) && source.content == Pack(src.file, rs)
    ensures DeflatesFrom(image, tgt.chunks)
  {
  }

  lemma PieceIsMade(codec: Codec, tgt: Zip, src: Zip, content: seq<byte>, image: seq<ImageChunk>, ps: seq<PatchChunk>,
                    xs: seq<Piece>)
    requires |xs| == |image| && PiecesOf(tgt.file, image, xs) && MakesAll(codec, content, ps, xs, 0, [])
    requires PatchesFor(image, ps, src.chunks)
    ensures PieceMade(codec, tgt, src, content, image, ps, xs)
  {
  }

  lemma GeneratedStarts(codec: Codec, tgt: Zip, src: Zip, tgts: seq<seq<ImageChunk>>, srcs: seq<SourceImage>,
                        ranges: seq<seq<Range>>)
    requires SplitOk(tgt, src, tgts, srcs, ranges)
    ensures Generated(codec, tgt, src, tgts, [], [])
  {
    CoverPrefix(tgts, |tgt.file|, 0);
    FirstAtZero(tgts, PieceStart(tgts, |tgt.file|, 0));
  }

  lemma GeneratedEnds(codec: Codec, tgt: Zip, src: Zip, tgts: seq<seq<ImageChunk>>, patchFile: seq<byte>,
                      info: seq<SplitInfo>)
    requires Generated(codec, tgt, src, tgts, patchFile, info) && |info| == |tgts|
    ensures SizesFit(tgt, src, |patchFile|) ==>
              ApplySplit(codec, src.file, patchFile, info) == if NoEmptyStreams(tgts) then Some(tgt.file) else None
  {
    hide ApplySplit, SizesFit, NoEmptyStreams;
    assert tgt.file[..|tgt.file|] == tgt.file && tgts[..|tgts|] == tgts;
  }

  /** The deflate chunks that the split keeps are the target's. */
  lemma KeptStreams(tgt: Zip, src: Zip, tgts: seq<seq<ImageChunk>>, srcs: seq<SourceImage>, ranges: seq<seq<Range>>)
    requires SplitOk(tgt, src, tgts, srcs, ranges) && NoEmptyStream(tgt.chunks)
    ensures NoEmptyStreams(tgts)
  {
    hide PieceOk, NoEmptyStream;
    forall k | 0 <= k < |tgts| ensures NoEmptyStream(tgts[k]) {
      PieceParts(tgt, src, tgts[k], srcs[k], ranges[k]);
      NoEmptyStreamFrom(tgts[k], tgt.chunks);
    }
  }

  lemma NoEmptyStreamFrom(cs: seq<ImageChunk>, all: seq<ImageChunk>)
    requires DeflatesFrom(cs, all) && NoEmptyStream(all)
    ensures NoEmptyStream(cs)
  {
  }
}
