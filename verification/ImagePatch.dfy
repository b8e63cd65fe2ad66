/** The patch container: what the writer lays out, what the reader makes of it, and that applying the
    patch of two images to the first gives the second. */
module ImagePatch {
  import opened Basics
  import opened RangeSets
  import opened ImageChunks

  datatype PatchChunk = PatchChunk(
    kind: ChunkType,
    sourceStart: nat, sourceLen: nat, sourceUncompressedLen: nat,
    targetStart: nat, targetLen: nat, targetUncompressedLen: nat,
    targetCompressLevel: nat, data: seq<byte>)

  // ---------- little-endian numbers ----------

  /** The low k bytes of n. */
  function Write(n: nat, k: nat): (b: seq<byte>)
    ensures |b| == k
  {
    if k == 0 then [] else [(n % 256) as byte] + Write(n / 256, k - 1)
  }

  function Read(b: seq<byte>): nat {
    if b == [] then 0 else b[0] as int + 256 * Read(b[1..])
  }

  function Width(k: nat): nat {
    if k == 0 then 1 else 256 * Width(k - 1)
  }

  lemma {:induction false} ReadWrite(n: nat, k: nat)
    ensures n < Width(k) ==> Read(Write(n, k)) == n
  {
    if k > 0 {
      var b := Write(n, k);
      assert b[1..] == Write(n / 256, k - 1);
      ReadWrite(n / 256, k - 1);
    }
  }

  /** Byte i of a number, the least significant one first. */
  lemma {:induction false} ByteOfNumber(n: nat, k: nat, i: nat)
    requires i < k
    ensures Width(i) > 0 && Write(n, k)[i] as int == n / Width(i) % 256
  {
    WidthPositive(i);
    if i > 0 {
      ByteOfNumber(n / 256, k - 1, i - 1);
      DivTwice(n, Width(i - 1));
    }
  }

  lemma {:induction false} WidthPositive(i: nat)
    ensures Width(i) > 0 && (i > 0 ==> Width(i) == 256 * Width(i - 1))
  {
    if i > 0 { WidthPositive(i - 1); }
  }

  const W4: nat := 0x1_0000_0000
  const W8: nat := 0x1_0000_0000_0000_0000

  lemma Widths()
    ensures Width(4) == W4 && Width(8) == W8
  {
    assert Width(4) == 256 * (256 * (256 * (256 * Width(0))));
    assert Width(8) == 256 * (256 * (256 * (256 * Width(4))));
  }

  function Signed(n: nat): int {
    if n < W4 / 2 then n else n - W4
  }

  function Unsigned(n: int): nat {
    n % W4
  }

  /** A size read with Read8. */
  function Size8(b: seq<byte>, at: nat): nat
    requires at + 8 <= |b|
  {
    Read(b[at..at + 8])
  }

  function Int4(b: seq<byte>, at: nat): int
    requires at + 4 <= |b|
  {
    Signed(Read(b[at..at + 4]))
  }

  // ---------- the layout ----------

  function Magic(): seq<byte> {
    [0x49, 0x4d, 0x47, 0x44, 0x49, 0x46, 0x46, 0x32]
  }

  function Code(t: ChunkType): int {
    match t
    case Normal => 0
    case Deflate => 2
    case Raw => 3
  }

  function HeaderSize(p: PatchChunk): nat {
    match p.kind
    case Normal => 4 + 8 * 3
    case Deflate => 4 + 8 * 5 + 4 * 5
    case Raw => 4 + 4 + |p.data|
  }

  function Header(p: PatchChunk, offset: nat): (h: seq<byte>)
    ensures |h| == HeaderSize(p)
  {
    match p.kind
    case Normal => Write(0, 4) + Write(p.sourceStart, 8) + Write(p.sourceLen, 8) + Write(offset, 8)
    case Deflate =>
      Write(2, 4) + Write(p.sourceStart, 8) + Write(p.sourceLen, 8) + Write(offset, 8)
      + Write(p.sourceUncompressedLen, 8) + Write(p.targetUncompressedLen, 8)
      + Write(Unsigned(p.targetCompressLevel), 4) + Write(8, 4) + Write(Unsigned(-15), 4) + Write(8, 4) + Write(0, 4)
    case Raw => Write(3, 4) + Write(|p.data|, 4) + p.data
  }

  /** What a chunk has after the headers. */
  function Body(p: PatchChunk): seq<byte> {
    if p.kind.Raw? then [] else p.data
  }

  function Headers(ps: seq<PatchChunk>, offset: nat): seq<byte> {
    if ps == [] then [] else Header(ps[0], offset) + Headers(ps[1..], offset + |Body(ps[0])|)
  }

  function HeaderSizes(ps: seq<PatchChunk>): nat {
    if ps == [] then 0 else HeaderSize(ps[0]) + HeaderSizes(ps[1..])
  }

  function Bodies(ps: seq<PatchChunk>): seq<byte> {
    if ps == [] then [] else Body(ps[0]) + Bodies(ps[1..])
  }

  function Container(ps: seq<PatchChunk>): seq<byte> {
    Magic() + Write(|ps|, 4) + Headers(ps, 12 + HeaderSizes(ps)) + Bodies(ps)
  }

  /** The container begins with its name, in ASCII, and the number of chunks. */
  lemma ContainerStarts(ps: seq<PatchChunk>)
    ensures |Container(ps)| >= 12 && Container(ps)[8..12] == Write(|ps|, 4)
    ensures forall i :: 0 <= i < 8 ==> Container(ps)[i] as int == "IMGDIFF2"[i] as int
  {
    hide Headers, HeaderSizes, Bodies, Write;
  }

  /** The fixed bytes of a record: its kind, and for a deflate chunk the method 8, the window bits -15, the
      memory level 8 and the strategy 0. */
  lemma RecordBytes(p: PatchChunk, offset: nat)
    ensures var h := Header(p, offset);
            && |h| >= 8 && h[1..4] == [0, 0, 0]
            && h[0] == (if p.kind.Normal? then 0 else if p.kind.Deflate? then 2 else 3)
            && (p.kind.Deflate? ==>
                  && |h| == 64 && h[48..52] == [8, 0, 0, 0] && h[52..56] == [0xf1, 0xff, 0xff, 0xff]
                  && h[56..60] == [8, 0, 0, 0] && h[60..64] == [0, 0, 0, 0])
  {
    SmallNumbers();
    hide Write;
    if p.kind.Deflate? {
      var front := Write(2, 4) + Write(p.sourceStart, 8) + Write(p.sourceLen, 8) + Write(offset, 8)
        + Write(p.sourceUncompressedLen, 8) + Write(p.targetUncompressedLen, 8)
        + Write(Unsigned(p.targetCompressLevel), 4);
      var back := [8, 0, 0, 0] + [0xf1, 0xff, 0xff, 0xff] + [8, 0, 0, 0] + [0, 0, 0, 0];
      assert Header(p, offset) == front + back;
      assert front[..4] == Write(2, 4);
    }
  }

  lemma SmallNumbers()
    ensures Write(0, 4) == [0, 0, 0, 0] && Write(2, 4) == [2, 0, 0, 0] && Write(3, 4) == [3, 0, 0, 0]
    ensures Write(8, 4) == [8, 0, 0, 0] && Write(Unsigned(-15), 4) == [0xf1, 0xff, 0xff, 0xff]
  {
    forall n: nat ensures Write(n, 4) == [(n % 256) as byte, (n / 256 % 256) as byte, (n / 256 / 256 % 256) as byte,
                                          (n / 256 / 256 / 256 % 256) as byte] {
      FourBytes(n);
    }
  }

  lemma FourBytes(n: nat)
    ensures Write(n, 4) == [(n % 256) as byte, (n / 256 % 256) as byte, (n / 256 / 256 % 256) as byte,
                            (n / 256 / 256 / 256 % 256) as byte]
  {
    assert Write(n / 256 / 256 / 256, 1) == [(n / 256 / 256 / 256 % 256) as byte] + [];
    assert Write(n / 256 / 256, 2) == [(n / 256 / 256 % 256) as byte] + Write(n / 256 / 256 / 256, 1);
    assert Write(n / 256, 3) == [(n / 256 % 256) as byte] + Write(n / 256 / 256, 2);
  }

  lemma {:induction false} HeadersLength(ps: seq<PatchChunk>, offset: nat)
    ensures |Headers(ps, offset)| == HeaderSizes(ps)
  {
    if ps != [] { HeadersLength(ps[1..], offset + |Body(ps[0])|); }
  }

  // ---------- writing ----------

  lemma SnocParts(ps: seq<PatchChunk>, p: PatchChunk)
    ensures ps == [] ==> ps + [p] == [p] && [p][1..] == []
    ensures ps != [] ==> (ps + [p])[0] == ps[0] && (ps + [p])[1..] == ps[1..] + [p]
  {
  }

  lemma {:induction false} BodiesSnoc(ps: seq<PatchChunk>, p: PatchChunk)
    ensures Bodies(ps + [p]) == Bodies(ps) + Body(p)
    ensures HeaderSizes(ps + [p]) == HeaderSizes(ps) + HeaderSize(p)
  {
    hide HeaderSize, Body;
    SnocParts(ps, p);
    if ps != [] {
      BodiesSnoc(ps[1..], p);
      assert Body(ps[0]) + (Bodies(ps[1..]) + Body(p)) == Body(ps[0]) + Bodies(ps[1..]) + Body(p);
    }
  }

  lemma {:induction false} HeadersSnoc(ps: seq<PatchChunk>, p: PatchChunk, offset: nat)
    ensures Headers(ps + [p], offset) == Headers(ps, offset) + Header(p, offset + |Bodies(ps)|)
  {
    hide Header, HeaderSize, Body;
    SnocParts(ps, p);
    if ps != [] {
      var next := offset + |Body(ps[0])|;
      HeadersSnoc(ps[1..], p, next);
      assert |Bodies(ps)| == |Body(ps[0])| + |Bodies(ps[1..])|;
      var h, last := Header(ps[0], offset), Header(p, offset + |Bodies(ps)|);
      assert h + (Headers(ps[1..], next) + last) == h + Headers(ps[1..], next) + last;
    }
  }

  lemma PrefixSnoc(ps: seq<PatchChunk>, i: nat, offset: nat)
    requires i < |ps|
    ensures Headers(ps[..i + 1], offset) == Headers(ps[..i], offset) + Header(ps[i], offset + |Bodies(ps[..i])|)
    ensures HeaderSizes(ps[..i + 1]) == HeaderSizes(ps[..i]) + HeaderSize(ps[i])
    ensures Bodies(ps[..i + 1]) == Bodies(ps[..i]) + Body(ps[i])
  {
    hide *;
    assert ps[..i + 1] == ps[..i] + [ps[i]];
    HeadersSnoc(ps[..i], ps[i], offset);
    BodiesSnoc(ps[..i], ps[i]);
  }

  /** WriteHeaderToFd: the header of one chunk, and the offset of the next patch. */
  method WriteHeader(p: PatchChunk, offset: nat) returns (out: seq<byte>, next: nat)
    ensures out == Header(p, offset) && next == offset + |Body(p)|
  {
    hide Write, Unsigned;
    out := Write(Code(p.kind), 4);
    match p.kind {
      case Normal =>
        out := out + Write(p.sourceStart, 8);
        out := out + Write(p.sourceLen, 8);
        out := out + Write(offset, 8);
        next := offset + |p.data|;
      case Deflate =>
        out := out + Write(p.sourceStart, 8);
        out := out + Write(p.sourceLen, 8);
        out := out + Write(offset, 8);
        out := out + Write(p.sourceUncompressedLen, 8);
        out := out + Write(p.targetUncompressedLen, 8);
        out := out + Write(Unsigned(p.targetCompressLevel), 4);
        out := out + Write(8, 4);
        out := out + Write(Unsigned(-15), 4);
        out := out + Write(8, 4);
        out := out + Write(0, 4);
        next := offset + |p.data|;
      case Raw =>
        out := out + Write(|p.data|, 4);
        out := out + p.data;
        next := offset;
    }
  }

  lemma NoPrefix(ps: seq<PatchChunk>, offset: nat)
    ensures Headers(ps[..0], offset) == [] && HeaderSizes(ps[..0]) == 0 && Bodies(ps[..0]) == []
    ensures ps[..|ps|] == ps
  {
  }

  method WritePatchDataToFd(ps: seq<PatchChunk>) returns (out: seq<byte>)
    ensures out == Container(ps)
  {
    hide Header, HeaderSize, Write, Headers, HeaderSizes, Bodies, Magic;
    var totalHeaderSize, i := 12, 0;
    NoPrefix(ps, 0);
    while i < |ps|
      invariant 0 <= i <= |ps| && totalHeaderSize == 12 + HeaderSizes(ps[..i])
    {
      PrefixSnoc(ps, i, 0);
      totalHeaderSize := totalHeaderSize + HeaderSize(ps[i]);
      i := i + 1;
    }
    var start := totalHeaderSize;
    out := Magic() + Write(|ps|, 4);
    var headers := WriteHeaders(ps, start);
    out := out + headers;
    ghost var before := out;
    i := 0;
    while i < |ps|
      invariant 0 <= i <= |ps| && out == before + Bodies(ps[..i])
    {
      PrefixSnoc(ps, i, start);
      if !ps[i].kind.Raw? { out := out + ps[i].data; }
      i := i + 1;
    }
  }

  method WriteHeaders(ps: seq<PatchChunk>, start: nat) returns (out: seq<byte>)
    ensures out == Headers(ps, start)
  {
    hide Header, Headers, Bodies, HeaderSizes;
    NoPrefix(ps, start);
    var offset, i := start, 0;
    out := [];
    while i < |ps|
      invariant 0 <= i <= |ps| && offset == start + |Bodies(ps[..i])| && out == Headers(ps[..i], start)
    {
      PrefixSnoc(ps, i, start);
      var header, next := WriteHeader(ps[i], offset);
      out, offset := out + header, next;
      i := i + 1;
    }
  }

  // ---------- reading ----------

  /** ApplyBSDiffPatch: the pieces given to the sink.  An offset past the patch aborts. */
  function BSDiffPieces(codec: Codec, source: seq<byte>, patch: seq<byte>, patchOffset: nat): Option<seq<seq<byte>>> {
    if patchOffset > |patch| then None else codec.bspatch(source, patch[patchOffset..])
  }

  function Joined(pieces: Option<seq<seq<byte>>>): Option<seq<byte>> {
    if pieces.None? then None else Some(Concat(pieces.value))
  }

  /** What the pieces deflate to, provided the stream is finished by them and has the expected length. */
  function Deflated(codec: Codec, pieces: Option<seq<seq<byte>>>, expected: nat,
                    params: DeflateParams): Option<seq<byte>> {
    if pieces.None? || pieces.value == [] || |Concat(pieces.value)| != expected then None
    else Some(codec.deflate(Concat(pieces.value), params))
  }

  function ApplyNormal(codec: Codec, oldData: seq<byte>, patch: seq<byte>, at: nat): Option<seq<byte>>
    requires at + 24 <= |patch|
  {
    var start, len := Size8(patch, at), Size8(patch, at + 8);
    if start + len > |oldData| then None
    else Joined(BSDiffPieces(codec, oldData[start..start + len], patch, Size8(patch, at + 16)))
  }

  function ParamsAt(patch: seq<byte>, at: nat): DeflateParams
    requires at + 60 <= |patch|
  {
    DeflateParams(Int4(patch, at + 40), Int4(patch, at + 44), Int4(patch, at + 48), Int4(patch, at + 52),
      Int4(patch, at + 56))
  }

  /** The source a deflate chunk is patched from: the inflated stream, then the bonus data. */
  function ExpandedSource(codec: Codec, raw: seq<byte>, expandedLen: nat, bonus: seq<byte>): Option<seq<byte>> {
    if expandedLen == 0 then Some([])
    else
      var r := codec.inflate(raw);
      if r.None? || |r.value.output| + |bonus| != expandedLen then None else Some(r.value.output + bonus)
  }

  function ApplyDeflate(codec: Codec, oldData: seq<byte>, patch: seq<byte>, at: nat,
                        bonus: seq<byte>): Option<seq<byte>>
    requires at + 60 <= |patch|
  {
    var start, len := Size8(patch, at), Size8(patch, at + 8);
    if start + len > |oldData| then None
    else
      var source := ExpandedSource(codec, oldData[start..start + len], Size8(patch, at + 24), bonus);
      if source.None? then None
      else Deflated(codec, BSDiffPieces(codec, source.value, patch, Size8(patch, at + 16)), Size8(patch, at + 32),
        ParamsAt(patch, at))
  }

  datatype Step = Step(output: seq<byte>, next: nat)

  function Advance(output: Option<seq<byte>>, next: nat): Option<Step> {
    if output.None? then None else Some(Step(output.value, next))
  }

  /** One chunk record at `pos`: its output and the position of the next record. */
  function ApplyChunk(codec: Codec, oldData: seq<byte>, patch: seq<byte>, pos: nat, bonus: seq<byte>): Option<Step> {
    if pos + 4 > |patch| then None
    else
      var kind, at := Int4(patch, pos), pos + 4;
      if kind == 0 then
        if at + 24 > |patch| then None else Advance(ApplyNormal(codec, oldData, patch, at), at + 24)
      else if kind == 3 then
        if at + 4 > |patch| then None
        else
          var dataLen := Int4(patch, at);
          if dataLen < 0 || at + 4 + dataLen > |patch| then None
          else Some(Step(patch[at + 4..at + 4 + dataLen], at + 4 + dataLen))
      else if kind == 2 then
        if at + 60 > |patch| then None else Advance(ApplyDeflate(codec, oldData, patch, at, bonus), at + 60)
      else None
  }

  /** Records i up to n, the first at `pos`. */
  function ApplyRest(codec: Codec, oldData: seq<byte>, patch: seq<byte>, bonus: seq<byte>, n: int, i: nat,
                     pos: nat): Option<seq<byte>>
    decreases n - i
  {
    if i >= n then Some([])
    else
      var step := ApplyChunk(codec, oldData, patch, pos, if i == 1 then bonus else []);
      if step.None? then None
      else
        var rest := ApplyRest(codec, oldData, patch, bonus, n, i + 1, step.value.next);
        if rest.None? then None else Some(step.value.output + rest.value)
  }

  function ApplyPatch(codec: Codec, oldData: seq<byte>, patch: seq<byte>, bonus: seq<byte>): Option<seq<byte>> {
    if |patch| < 12 || patch[..8] != Magic() then None
    else ApplyRest(codec, oldData, patch, bonus, Int4(patch, 8), 0, 12)
  }

  lemma {:induction false} ConcatSnoc(pieces: seq<seq<byte>>, i: nat)
    requires i < |pieces|
    ensures Concat(pieces[..i + 1]) == Concat(pieces[..i]) + pieces[i]
  {
    assert pieces[..i + 1][..i] == pieces[..i];
  }

  lemma {:induction false} ConcatGrows(pieces: seq<seq<byte>>, i: nat)
    requires i <= |pieces|
    ensures |Concat(pieces[..i])| <= |Concat(pieces)|
    decreases |pieces| - i
  {
    if i == |pieces| {
      assert pieces[..i] == pieces;
    } else {
      ConcatSnoc(pieces, i);
      ConcatGrows(pieces, i + 1);
    }
  }

  /** The sink of ApplyBSDiffPatchAndStreamOutput: deflate piece by piece, finishing when the expected
      length is reached.  Input after that is an error. */
  method StreamOutput(codec: Codec, pieces: seq<seq<byte>>, expected: nat, params: DeflateParams)
    returns (r: Option<seq<byte>>)
    ensures r == Deflated(codec, Some(pieces), expected, params)
  {
    var fed, actual, finished, i := [], 0, false, 0;
    while i < |pieces|
      invariant 0 <= i <= |pieces| && fed == Concat(pieces[..i]) && actual == |fed|
      invariant finished <==> i > 0 && actual >= expected
    {
      ConcatSnoc(pieces, i);
      if finished && pieces[i] != [] {
        ConcatGrows(pieces, i + 1);
        return None;
      }
      fed := fed + pieces[i];
      finished := actual + |pieces[i]| >= expected;
      actual := actual + |pieces[i]|;
      i := i + 1;
    }
    assert pieces[..i] == pieces;
    if !finished { return None; }
    if actual != expected { return None; }
    return Some(codec.deflate(fed, params));
  }

  /** Inflate the source of a deflate chunk and patch it, streaming the deflated result. */
  method ApplyDeflateChunk(codec: Codec, oldData: seq<byte>, patch: seq<byte>, at: nat, bonus: seq<byte>)
    returns (r: Option<seq<byte>>)
    requires at + 60 <= |patch|
    ensures r == ApplyDeflate(codec, oldData, patch, at, bonus)
  {
    hide Deflated, Size8, ParamsAt;
    var srcStart, srcLen := Size8(patch, at), Size8(patch, at + 8);
    var patchOffset, expandedLen := Size8(patch, at + 16), Size8(patch, at + 24);
    if srcStart + srcLen > |oldData| { return None; }
    var expandedSource := [];
    if expandedLen != 0 {
      var inflated := codec.inflate(oldData[srcStart..srcStart + srcLen]);
      if inflated.None? { return None; }
      if |inflated.value.output| > expandedLen { return None; }
      if expandedLen - |inflated.value.output| != |bonus| { return None; }
      expandedSource := inflated.value.output + bonus;
    }
    var pieces := BSDiffPieces(codec, expandedSource, patch, patchOffset);
    if pieces.None? {
      NothingDeflated(codec, Size8(patch, at + 32), ParamsAt(patch, at));
      return None;
    }
    r := StreamOutput(codec, pieces.value, Size8(patch, at + 32), ParamsAt(patch, at));
  }

  lemma NothingDeflated(codec: Codec, expected: nat, params: DeflateParams)
    ensures Deflated(codec, None, expected, params) == None
  {
  }

  /** One turn of the loop of ApplyImagePatch. */
  method ApplyRecord(codec: Codec, oldData: seq<byte>, patch: seq<byte>, start: nat, bonus: seq<byte>)
    returns (r: Option<Step>)
    ensures r == ApplyChunk(codec, oldData, patch, start, bonus)
  {
    hide Int4, ApplyDeflate, ApplyNormal;
    var pos := start;
    if pos + 4 > |patch| { return None; }
    var kind := Int4(patch, pos);
    pos := pos + 4;
    var header := pos;
    var output: Option<seq<byte>>;
    if kind == 0 {
      pos := pos + 24;
      if pos > |patch| { return None; }
      output := ApplyNormal(codec, oldData, patch, header);
    } else if kind == 3 {
      pos := pos + 4;
      if pos > |patch| { return None; }
      var dataLen := Int4(patch, header);
      if dataLen < 0 || pos + dataLen > |patch| { return None; }
      output := Some(patch[pos..pos + dataLen]);
      pos := pos + dataLen;
    } else if kind == 2 {
      pos := pos + 60;
      if pos > |patch| { return None; }
      output := ApplyDeflateChunk(codec, oldData, patch, header, bonus);
    } else {
      return None;
    }
    r := Advance(output, pos);
  }

  function Appended(out: seq<byte>, rest: Option<seq<byte>>): Option<seq<byte>> {
    if rest.None? then None else Some(out + rest.value)
  }

  lemma AppendedStep(codec: Codec, oldData: seq<byte>, patch: seq<byte>, bonus: seq<byte>, n: int, i: nat, pos: nat,
                     out: seq<byte>)
    requires i < n
    ensures var step := ApplyChunk(codec, oldData, patch, pos, if i == 1 then bonus else []);
            Appended(out, ApplyRest(codec, oldData, patch, bonus, n, i, pos)) ==
            if step.None? then None
            else Appended(out + step.value.output, ApplyRest(codec, oldData, patch, bonus, n, i + 1, step.value.next))
  {
    hide ApplyChunk;
    var step := ApplyChunk(codec, oldData, patch, pos, if i == 1 then bonus else []);
    if step.Some? {
      var rest := ApplyRest(codec, oldData, patch, bonus, n, i + 1, step.value.next);
      if rest.Some? { assert out + (step.value.output + rest.value) == out + step.value.output + rest.value; }
    }
  }

  lemma AppendedNothing(out: seq<byte>, rest: Option<seq<byte>>)
    ensures Appended([], rest) == rest && Appended(out, Some([])) == Some(out)
  {
    if rest.Some? { assert [] + rest.value == rest.value; }
    assert out + [] == out;
  }

  method ApplyImagePatch(codec: Codec, oldData: seq<byte>, patch: seq<byte>, bonus: seq<byte>)
    returns (r: Option<seq<byte>>)
    ensures r == ApplyPatch(codec, oldData, patch, bonus)
  {
    hide Int4, ApplyChunk, Magic, Appended;
    if |patch| < 12 { return None; }
    if patch[..8] != Magic() { return None; }
    var numChunks := Int4(patch, 8);
    var pos, i, out := 12, 0, [];
    AppendedNothing([], ApplyRest(codec, oldData, patch, bonus, numChunks, 0, 12));
    while i < numChunks
      invariant 0 <= i && 0 <= pos && (i == 0 || i <= numChunks)
      invariant ApplyPatch(codec, oldData, patch, bonus) ==
                Appended(out, ApplyRest(codec, oldData, patch, bonus, numChunks, i, pos))
      decreases numChunks - i
    {
      AppendedStep(codec, oldData, patch, bonus, numChunks, i, pos, out);
      var step := ApplyRecord(codec, oldData, patch, pos, if i == 1 then bonus else []);
      if step.None? { return None; }
      out, pos := out + step.value.output, step.value.next;
      i := i + 1;
    }
    AppendedNothing(out, None);
    return Some(out);
  }

  // ---------- the round trip ----------

  /** The bytes of a target chunk, the data they were deflated from, and the data they are patched from. */
  datatype Piece = Piece(raw: seq<byte>, plain: seq<byte>, source: seq<byte>)

  /** The chunk of the patch that makes x.raw out of the source file. */
  ghost predicate Makes(codec: Codec, oldData: seq<byte>, p: PatchChunk, x: Piece, bonus: seq<byte>) {
    match p.kind
    case Raw => p.data == x.raw
    case Normal =>
      && p.sourceStart + p.sourceLen <= |oldData|
      && codec.bsdiff(oldData[p.sourceStart..p.sourceStart + p.sourceLen], x.raw) == Some(p.data)
    case Deflate =>
      && p.sourceStart + p.sourceLen <= |oldData|
      && p.sourceUncompressedLen == |x.source| && p.targetUncompressedLen == |x.plain|
      && codec.bsdiff(x.source, x.plain) == Some(p.data)
      && codec.deflate(x.plain, Params(p.targetCompressLevel)) == x.raw
      && ExpandedSource(codec, oldData[p.sourceStart..p.sourceStart + p.sourceLen], |x.source|, bonus) == Some(x.source)
  }

  /** The numbers survive being written and read. */
  ghost predicate Fits(p: PatchChunk) {
    match p.kind
    case Raw => |p.data| < W4 / 2
    case Normal => p.sourceStart < W8 && p.sourceLen < W8
    case Deflate =>
      && p.sourceStart < W8 && p.sourceLen < W8 && p.sourceUncompressedLen < W8 && p.targetUncompressedLen < W8
      && p.targetCompressLevel < W4 / 2
  }

  ghost predicate AllFit(ps: seq<PatchChunk>) {
    |ps| < W4 / 2 && |Container(ps)| < W8 && forall i :: 0 <= i < |ps| ==> Fits(ps[i])
  }

  /** bspatch hands no data to the sink for an empty target, and the deflate stream is never finished. */
  predicate Finishes(p: PatchChunk) {
    p.kind.Deflate? ==> p.targetUncompressedLen > 0
  }

  function RawConcat(xs: seq<Piece>): seq<byte> {
    if xs == [] then [] else xs[0].raw + RawConcat(xs[1..])
  }

  lemma FieldAt(a: seq<byte>, n: nat, k: nat, b: seq<byte>)
    requires n < Width(k)
    ensures Read((a + Write(n, k) + b)[|a|..|a| + k]) == n
  {
    hide Read, Write;
    assert (a + Write(n, k) + b)[|a|..|a| + k] == Write(n, k);
    ReadWrite(n, k);
  }

  lemma SubSlice(b: seq<byte>, pos: nat, h: seq<byte>, from: nat, to: nat)
    requires pos + |h| <= |b| && b[pos..pos + |h|] == h && from <= to <= |h|
    ensures b[pos + from..pos + to] == h[from..to]
  {
    var s := b[pos + from..pos + to];
    forall k | 0 <= k < |s| ensures s[k] == h[from..to][k] {
      assert b[pos..pos + |h|][from + k] == b[pos + (from + k)];
    }
  }

  /** The number at `from` of a header that lies at `pos`. */
  lemma FieldIn(b: seq<byte>, pos: nat, h: seq<byte>, front: seq<byte>, n: nat, k: nat, back: seq<byte>)
    requires h == front + Write(n, k) + back && n < Width(k)
    requires pos + |h| <= |b| && b[pos..pos + |h|] == h
    ensures pos + |front| + k <= |b| && Read(b[pos + |front|..pos + |front| + k]) == n
  {
    hide Read, Write;
    SubSlice(b, pos, h, |front|, |front| + k);
    FieldAt(front, n, k, back);
  }

  lemma ReadsNormal(b: seq<byte>, pos: nat, p: PatchChunk, offset: nat)
    requires p.kind.Normal? && Fits(p) && offset < W8
    requires pos + HeaderSize(p) <= |b| && b[pos..pos + HeaderSize(p)] == Header(p, offset)
    ensures Int4(b, pos) == 0 && Size8(b, pos + 4) == p.sourceStart && Size8(b, pos + 12) == p.sourceLen
    ensures Size8(b, pos + 20) == offset
  {
    hide Read, Write;
    Widths();
    var h := Header(p, offset);
    var f0, f1, f2, f3 := Write(0, 4), Write(p.sourceStart, 8), Write(p.sourceLen, 8), Write(offset, 8);
    assert h == [] + f0 + (f1 + f2 + f3);
    FieldIn(b, pos, h, [], 0, 4, f1 + f2 + f3);
    assert h == f0 + f1 + (f2 + f3);
    FieldIn(b, pos, h, f0, p.sourceStart, 8, f2 + f3);
    assert h == (f0 + f1) + f2 + f3;
    FieldIn(b, pos, h, f0 + f1, p.sourceLen, 8, f3);
    assert h == (f0 + f1 + f2) + f3 + [];
    FieldIn(b, pos, h, f0 + f1 + f2, offset, 8, []);
  }

  lemma ReadsRaw(b: seq<byte>, pos: nat, p: PatchChunk, offset: nat)
    requires p.kind.Raw? && Fits(p)
    requires pos + HeaderSize(p) <= |b| && b[pos..pos + HeaderSize(p)] == Header(p, offset)
    ensures Int4(b, pos) == 3 && Int4(b, pos + 4) == |p.data| && b[pos + 8..pos + 8 + |p.data|] == p.data
  {
    hide Read, Write;
    Widths();
    var h, f0, f1 := Header(p, offset), Write(3, 4), Write(|p.data|, 4);
    assert h == [] + f0 + (f1 + p.data);
    FieldIn(b, pos, h, [], 3, 4, f1 + p.data);
    assert h == f0 + f1 + p.data;
    FieldIn(b, pos, h, f0, |p.data|, 4, p.data);
    SubSlice(b, pos, h, 8, 8 + |p.data|);
    assert h[8..8 + |p.data|] == p.data;
  }

  lemma ReadsSources(b: seq<byte>, pos: nat, p: PatchChunk, offset: nat)
    requires p.kind.Deflate? && Fits(p) && offset < W8
    requires pos + HeaderSize(p) <= |b| && b[pos..pos + HeaderSize(p)] == Header(p, offset)
    ensures Int4(b, pos) == 2 && Size8(b, pos + 4) == p.sourceStart && Size8(b, pos + 12) == p.sourceLen
    ensures Size8(b, pos + 20) == offset && Size8(b, pos + 28) == p.sourceUncompressedLen
    ensures Size8(b, pos + 36) == p.targetUncompressedLen
  {
    hide Read, Write, Unsigned;
    Widths();
    var h := Header(p, offset);
    var f0, f1, f2, f3 := Write(2, 4), Write(p.sourceStart, 8), Write(p.sourceLen, 8), Write(offset, 8);
    var f4, f5 := Write(p.sourceUncompressedLen, 8), Write(p.targetUncompressedLen, 8);
    var params := Write(Unsigned(p.targetCompressLevel), 4) + Write(8, 4) + Write(Unsigned(-15), 4) + Write(8, 4)
      + Write(0, 4);
    assert h == f0 + f1 + f2 + f3 + f4 + f5 + params;
    assert h == [] + f0 + (f1 + f2 + f3 + f4 + f5 + params);
    FieldIn(b, pos, h, [], 2, 4, f1 + f2 + f3 + f4 + f5 + params);
    assert h == f0 + f1 + (f2 + f3 + f4 + f5 + params);
    FieldIn(b, pos, h, f0, p.sourceStart, 8, f2 + f3 + f4 + f5 + params);
    assert h == (f0 + f1) + f2 + (f3 + f4 + f5 + params);
    FieldIn(b, pos, h, f0 + f1, p.sourceLen, 8, f3 + f4 + f5 + params);
    assert h == (f0 + f1 + f2) + f3 + (f4 + f5 + params);
    FieldIn(b, pos, h, f0 + f1 + f2, offset, 8, f4 + f5 + params);
    assert h == (f0 + f1 + f2 + f3) + f4 + (f5 + params);
    FieldIn(b, pos, h, f0 + f1 + f2 + f3, p.sourceUncompressedLen, 8, f5 + params);
    assert h == (f0 + f1 + f2 + f3 + f4) + f5 + params;
    FieldIn(b, pos, h, f0 + f1 + f2 + f3 + f4, p.targetUncompressedLen, 8, params);
  }

  lemma ReadsParams(b: seq<byte>, pos: nat, p: PatchChunk, offset: nat)
    requires p.kind.Deflate? && Fits(p) && offset < W8
    requires pos + HeaderSize(p) <= |b| && b[pos..pos + HeaderSize(p)] == Header(p, offset)
    ensures ParamsAt(b, pos + 4) == Params(p.targetCompressLevel)
  {
    hide Read, Write;
    Widths();
    var h := Header(p, offset);
    var front := Write(2, 4) + Write(p.sourceStart, 8) + Write(p.sourceLen, 8) + Write(offset, 8)
      + Write(p.sourceUncompressedLen, 8) + Write(p.targetUncompressedLen, 8);
    var q0, q1, q2, q3, q4 := Write(Unsigned(p.targetCompressLevel), 4), Write(8, 4), Write(Unsigned(-15), 4),
      Write(8, 4), Write(0, 4);
    assert h == front + q0 + q1 + q2 + q3 + q4;
    assert h == front + q0 + (q1 + q2 + q3 + q4);
    FieldIn(b, pos, h, front, Unsigned(p.targetCompressLevel), 4, q1 + q2 + q3 + q4);
    assert h == (front + q0) + q1 + (q2 + q3 + q4);
    FieldIn(b, pos, h, front + q0, 8, 4, q2 + q3 + q4);
    assert h == (front + q0 + q1) + q2 + (q3 + q4);
    FieldIn(b, pos, h, front + q0 + q1, Unsigned(-15), 4, q3 + q4);
    assert h == (front + q0 + q1 + q2) + q3 + q4;
    FieldIn(b, pos, h, front + q0 + q1 + q2, 8, 4, q4);
    assert h == (front + q0 + q1 + q2 + q3) + q4 + [];
    FieldIn(b, pos, h, front + q0 + q1 + q2 + q3, 0, 4, []);
  }

  lemma DiffApplies(codec: Codec, source: seq<byte>, target: seq<byte>, data: seq<byte>, b: seq<byte>, offset: nat)
    requires LawfulDiff(codec) && codec.bsdiff(source, target) == Some(data)
    requires offset + |data| <= |b| && b[offset..offset + |data|] == data
    ensures var r := BSDiffPieces(codec, source, b, offset);
            && r.Some? && Concat(r.value) == target && (r.value == [] <==> target == [])
  {
    var rest := b[offset + |data|..];
    assert b[offset..] == data + rest;
    var r := codec.bspatch(source, data + rest);
    if r.value != [] {
      assert r.value[|r.value| - 1] != [];
    }
  }

  /** Reading one record of a container. */
  lemma ApplyOne(codec: Codec, oldData: seq<byte>, b: seq<byte>, pos: nat, p: PatchChunk, offset: nat, x: Piece,
                 bonus: seq<byte>)
    requires LawfulDiff(codec) && Makes(codec, oldData, p, x, bonus) && Fits(p) && offset < W8
    requires pos + HeaderSize(p) <= |b| && b[pos..pos + HeaderSize(p)] == Header(p, offset)
    requires offset + |Body(p)| <= |b| && b[offset..offset + |Body(p)|] == Body(p)
    ensures ApplyChunk(codec, oldData, b, pos, bonus) ==
            if Finishes(p) then Some(Step(x.raw, pos + HeaderSize(p))) else None
  {
    hide Header, Int4, Size8, LawfulDiff, Read, ParamsAt;
    match p.kind
    case Raw => ReadsRaw(b, pos, p, offset);
    case Normal =>
      ReadsNormal(b, pos, p, offset);
      DiffApplies(codec, oldData[p.sourceStart..p.sourceStart + p.sourceLen], x.raw, p.data, b, offset);
    case Deflate =>
      ReadsSources(b, pos, p, offset);
      ReadsParams(b, pos, p, offset);
      DiffApplies(codec, x.source, x.plain, p.data, b, offset);
  }

  ghost predicate MakesAll(codec: Codec, oldData: seq<byte>, ps: seq<PatchChunk>, xs: seq<Piece>, i: nat,
                           bonus: seq<byte>) {
    |ps| == |xs| && forall j :: 0 <= j < |ps| ==> Makes(codec, oldData, ps[j], xs[j], if i + j == 1 then bonus else [])
  }

  predicate FinishesAll(ps: seq<PatchChunk>) {
    forall j :: 0 <= j < |ps| ==> Finishes(ps[j])
  }

  lemma MakesRest(codec: Codec, oldData: seq<byte>, ps: seq<PatchChunk>, xs: seq<Piece>, i: nat, bonus: seq<byte>)
    requires MakesAll(codec, oldData, ps, xs, i, bonus) && ps != []
    ensures Makes(codec, oldData, ps[0], xs[0], if i == 1 then bonus else [])
    ensures MakesAll(codec, oldData, ps[1..], xs[1..], i + 1, bonus)
  {
    hide Makes;
    assert Makes(codec, oldData, ps[0], xs[0], if i + 0 == 1 then bonus else []);
    var qs, ys := ps[1..], xs[1..];
    forall j | 0 <= j < |qs| ensures Makes(codec, oldData, qs[j], ys[j], if i + 1 + j == 1 then bonus else []) {
      assert Makes(codec, oldData, ps[j + 1], xs[j + 1], if i + (j + 1) == 1 then bonus else []);
    }
  }

  lemma FinishesRest(ps: seq<PatchChunk>)
    requires ps != []
    ensures FinishesAll(ps) <==> Finishes(ps[0]) && FinishesAll(ps[1..])
  {
    if Finishes(ps[0]) && FinishesAll(ps[1..]) {
      forall j | 0 <= j < |ps| ensures Finishes(ps[j]) {
        if j > 0 { assert Finishes(ps[1..][j - 1]); }
      }
    }
  }

  /** A container from some record on: the records before it, its records, the patches before its
      patches, its patches. */
  function Tail(front: seq<byte>, ps: seq<PatchChunk>, middle: seq<byte>): seq<byte> {
    front + Headers(ps, |front| + HeaderSizes(ps) + |middle|) + middle + Bodies(ps)
  }

  lemma ConsParts(ps: seq<PatchChunk>, offset: nat)
    requires ps != []
    ensures Headers(ps, offset) == Header(ps[0], offset) + Headers(ps[1..], offset + |Body(ps[0])|)
    ensures HeaderSizes(ps) == HeaderSize(ps[0]) + HeaderSizes(ps[1..]) && Bodies(ps) == Body(ps[0]) + Bodies(ps[1..])
  {
    hide Header, HeaderSize, Body;
  }

  lemma TailStep(front: seq<byte>, ps: seq<PatchChunk>, middle: seq<byte>)
    requires ps != []
    ensures var offset, b := |front| + HeaderSizes(ps) + |middle|, Tail(front, ps, middle);
            && |front| + HeaderSize(ps[0]) <= |b|
            && b[|front|..|front| + HeaderSize(ps[0])] == Header(ps[0], offset)
            && offset + |Body(ps[0])| <= |b| && b[offset..offset + |Body(ps[0])|] == Body(ps[0])
            && b == Tail(front + Header(ps[0], offset), ps[1..], middle + Body(ps[0]))
  {
    hide Header, HeaderSize, Body, Headers, HeaderSizes, Bodies;
    var offset := |front| + HeaderSizes(ps) + |middle|;
    var h, d := Header(ps[0], offset), Body(ps[0]);
    var hs, ds := Headers(ps[1..], offset + |d|), Bodies(ps[1..]);
    HeadersLength(ps, offset);
    ConsParts(ps, offset);
    assert |front + h| + HeaderSizes(ps[1..]) + |middle + d| == offset + |d|;
    assert Tail(front + h, ps[1..], middle + d) == (front + h) + hs + (middle + d) + ds;
    SpliceParts(front, h, hs, middle, d, ds);
  }

  lemma SpliceParts(front: seq<byte>, h: seq<byte>, hs: seq<byte>, middle: seq<byte>, d: seq<byte>, ds: seq<byte>)
    ensures var b, at := front + (h + hs) + middle + (d + ds), |front| + |h + hs| + |middle|;
            b[|front|..|front| + |h|] == h && b[at..at + |d|] == d && b == (front + h) + hs + (middle + d) + ds
  {
  }

  lemma {:induction false} ApplyAll(codec: Codec, oldData: seq<byte>, front: seq<byte>, ps: seq<PatchChunk>,
                                    middle: seq<byte>,
                                    xs: seq<Piece>, bonus: seq<byte>, i: nat)
    requires LawfulDiff(codec) && MakesAll(codec, oldData, ps, xs, i, bonus) && |Tail(front, ps, middle)| < W8
    requires forall j :: 0 <= j < |ps| ==> Fits(ps[j])
    ensures ApplyRest(codec, oldData, Tail(front, ps, middle), bonus, i + |ps|, i, |front|) ==
            if FinishesAll(ps) then Some(RawConcat(xs)) else None
    decreases |ps|
  {
    hide LawfulDiff, Makes, MakesAll, Finishes, FinishesAll, ApplyChunk, Tail, Header, HeaderSize, Body, Fits;
    if ps != [] {
      MakesSizes(codec, oldData, ps, xs, i, bonus);
      var b, offset := Tail(front, ps, middle), |front| + HeaderSizes(ps) + |middle|;
      TailStep(front, ps, middle);
      MakesRest(codec, oldData, ps, xs, i, bonus);
      FinishesRest(ps);
      var extra := if i == 1 then bonus else [];
      ApplyOne(codec, oldData, b, |front|, ps[0], offset, xs[0], extra);
      var front' := front + Header(ps[0], offset);
      ApplyAll(codec, oldData, front', ps[1..], middle + Body(ps[0]), xs[1..], bonus, i + 1);
    } else {
      NoneFinishes(codec, oldData, ps, xs, i, bonus);
    }
  }

  lemma MakesSizes(codec: Codec, oldData: seq<byte>, ps: seq<PatchChunk>, xs: seq<Piece>, i: nat, bonus: seq<byte>)
    requires MakesAll(codec, oldData, ps, xs, i, bonus)
    ensures |ps| == |xs|
  {
  }

  lemma NoneFinishes(codec: Codec, oldData: seq<byte>, ps: seq<PatchChunk>, xs: seq<Piece>, i: nat, bonus: seq<byte>)
    requires ps == [] && MakesAll(codec, oldData, ps, xs, i, bonus)
    ensures FinishesAll(ps) && xs == []
  {
  }

  /** Applying the container to the source makes the target, exactly when no deflate target is empty. */
  lemma RoundTrip(codec: Codec, oldData: seq<byte>, ps: seq<PatchChunk>, xs: seq<Piece>, bonus: seq<byte>)
    requires LawfulDiff(codec) && MakesAll(codec, oldData, ps, xs, 0, bonus) && AllFit(ps)
    ensures ApplyPatch(codec, oldData, Container(ps), bonus) == if FinishesAll(ps) then Some(RawConcat(xs)) else None
  {
    hide LawfulDiff, MakesAll, FinishesAll, ApplyRest, Headers, HeaderSizes, Bodies, Read, Write;
    var b, front := Container(ps), Magic() + Write(|ps|, 4);
    assert b == front + Headers(ps, 12 + HeaderSizes(ps)) + [] + Bodies(ps);
    assert b == Tail(front, ps, []);
    Widths();
    assert b[8..12] == Write(|ps|, 4);
    ReadWrite(|ps|, 4);
    assert b[..8] == Magic();
    ApplyAll(codec, oldData, front, ps, [], xs, bonus, 0);
  }

  // ---------- making the patch of two images ----------

  /** The patch of a target chunk, as far as its record goes: a deflate chunk stays one and is patched
      from one of the sources. */
  ghost predicate PatchFor(c: ImageChunk, p: PatchChunk, sources: seq<ImageChunk>) {
    && (p.kind.Deflate? <==> c.kind.Deflate?)
    && (p.kind.Raw? ==> |p.data| == c.len)
    && (p.kind.Deflate? ==>
          && p.targetUncompressedLen == |c.data| && p.targetCompressLevel == c.level <= 9
          && exists d :: d in sources && d.kind.Deflate? && p.sourceUncompressedLen == |d.data|)
  }

  ghost predicate PatchesFor(cs: seq<ImageChunk>, ps: seq<PatchChunk>, sources: seq<ImageChunk>) {
    |ps| <= |cs| && forall i :: 0 <= i < |ps| ==> PatchFor(cs[i], ps[i], sources)
  }

  lemma PatchesForSnoc(cs: seq<ImageChunk>, ps: seq<PatchChunk>, sources: seq<ImageChunk>, p: PatchChunk)
    requires PatchesFor(cs, ps, sources) && |ps| < |cs| && PatchFor(cs[|ps|], p, sources)
    ensures PatchesFor(cs, ps + [p], sources)
  {
    hide PatchFor;
  }

  /** What the deflate chunks inflate to is smaller than 2^64 bytes. */
  ghost predicate DataFits(cs: seq<ImageChunk>) {
    forall c :: c in cs && c.kind.Deflate? ==> |c.data| < W8
  }

  /** No deflate chunk inflates to nothing. */
  predicate NoEmptyStream(cs: seq<ImageChunk>) {
    forall c :: c in cs && c.kind.Deflate? ==> c.data != []
  }

  lemma NoEmptyStreamMeans(cs: seq<ImageChunk>, ps: seq<PatchChunk>, sources: seq<ImageChunk>)
    requires PatchesFor(cs, ps, sources) && |ps| == |cs|
    ensures FinishesAll(ps) <==> NoEmptyStream(cs)
  {
    forall i | 0 <= i < |ps| ensures Finishes(ps[i]) <==> !(cs[i].kind.Deflate? && cs[i].data == []) {
      assert PatchFor(cs[i], ps[i], sources);
    }
    if FinishesAll(ps) {
      forall c | c in cs && c.kind.Deflate? ensures c.data != [] {
        var i :| 0 <= i < |cs| && cs[i] == c;
        assert Finishes(ps[i]);
      }
    }
  }

  /** Every chunk has a record of eight bytes or more. */
  lemma {:induction false} RecordSizes(ps: seq<PatchChunk>)
    ensures HeaderSizes(ps) >= 8 * |ps|
  {
    if ps != [] { RecordSizes(ps[1..]); }
  }

  /** In a patch of less than 16 GiB for a target of less than 2 GiB all numbers fit their fields. */
  lemma PatchesFit(codec: Codec, oldData: seq<byte>, ps: seq<PatchChunk>, xs: seq<Piece>, bonus: seq<byte>,
                   tfile: seq<byte>, cs: seq<ImageChunk>, sources: seq<ImageChunk>)
    requires MakesAll(codec, oldData, ps, xs, 0, bonus) && PatchesFor(cs, ps, sources) && PiecesOf(tfile, cs, xs)
    requires |oldData| < W8 && |tfile| < W4 / 2 && |Container(ps)| < 8 * (W4 / 2) && DataFits(cs) && DataFits(sources)
    ensures AllFit(ps)
  {
    hide Makes, Container, HeaderSizes, Headers, Bodies;
    RecordSizes(ps);
    ContainerHasRecords(ps);
    forall i | 0 <= i < |ps| ensures Fits(ps[i]) {
      assert Makes(codec, oldData, ps[i], xs[i], if 0 + i == 1 then bonus else []) && PatchFor(cs[i], ps[i], sources);
      MakesWithin(codec, oldData, ps[i], xs[i], if i == 1 then bonus else []);
    }
  }

  lemma ContainerHasRecords(ps: seq<PatchChunk>)
    ensures |Container(ps)| >= HeaderSizes(ps)
  {
    HeadersLength(ps, 12 + HeaderSizes(ps));
  }

  lemma MakesWithin(codec: Codec, oldData: seq<byte>, p: PatchChunk, x: Piece, bonus: seq<byte>)
    requires Makes(codec, oldData, p, x, bonus)
    ensures !p.kind.Raw? ==> p.sourceStart + p.sourceLen <= |oldData|
  {
  }

  /** Small or badly compressing normal chunks are stored as they are. */
  predicate RawDataIsSmaller(tgt: ImageChunk, patchSize: nat) {
    tgt.kind.Normal? && (tgt.len <= 160 || tgt.len < patchSize)
  }

  function RawPatch(tgt: ImageChunk, tfile: seq<byte>): PatchChunk
    requires End(tgt) <= |tfile|
  {
    var data := DataForPatch(tgt, tfile);
    PatchChunk(Raw, 0, 0, 0, tgt.start, tgt.len, |data|, tgt.level, data)
  }

  function DiffPatch(tgt: ImageChunk, tfile: seq<byte>, src: ImageChunk, sfile: seq<byte>, data: seq<byte>): PatchChunk
    requires End(tgt) <= |tfile| && End(src) <= |sfile|
  {
    PatchChunk(tgt.kind, src.start, src.len, |DataForPatch(src, sfile)|, tgt.start, tgt.len, |DataForPatch(tgt, tfile)|,
      tgt.level, data)
  }

  function PieceOf(tgt: ImageChunk, tfile: seq<byte>, src: ImageChunk, sfile: seq<byte>): Piece
    requires End(tgt) <= |tfile| && End(src) <= |sfile|
  {
    Piece(RawData(tgt, tfile), DataForPatch(tgt, tfile), DataForPatch(src, sfile))
  }

  /** A source chunk holds what its stream inflates to, and then the bonus data if it has any. */
  ghost predicate SourceReady(codec: Codec, sfile: seq<byte>, src: ImageChunk, extra: seq<byte>) {
    && End(src) <= |sfile|
    && (src.kind.Deflate? ==>
          var r := codec.inflate(sfile[src.start..]);
          r.Some? && r.value.consumed == src.len && src.data == r.value.output + extra)
  }

  ghost predicate PairReady(codec: Codec, tfile: seq<byte>, tgt: ImageChunk, sfile: seq<byte>, src: ImageChunk,
                            extra: seq<byte>) {
    && End(tgt) <= |tfile| && !tgt.kind.Raw? && Reproducible(codec, tfile, tgt) && tgt.kind == src.kind
    && tgt.level <= 9 && SourceReady(codec, sfile, src, extra)
  }

  lemma RawMakes(codec: Codec, tfile: seq<byte>, tgt: ImageChunk, sfile: seq<byte>, src: ImageChunk, extra: seq<byte>)
    requires PairReady(codec, tfile, tgt, sfile, src, extra) && tgt.kind.Normal?
    ensures Makes(codec, sfile, RawPatch(tgt, tfile), PieceOf(tgt, tfile, src, sfile), extra)
  {
  }

  lemma DiffMakes(codec: Codec, tfile: seq<byte>, tgt: ImageChunk, sfile: seq<byte>, src: ImageChunk, extra: seq<byte>,
                  data: seq<byte>)
    requires PairReady(codec, tfile, tgt, sfile, src, extra) && LawfulInflate(codec)
    requires codec.bsdiff(DataForPatch(src, sfile), DataForPatch(tgt, tfile)) == Some(data)
    ensures Makes(codec, sfile, DiffPatch(tgt, tfile, src, sfile, data), PieceOf(tgt, tfile, src, sfile), extra)
  {
    if tgt.kind.Deflate? {
      var stream := sfile[src.start..];
      assert stream[..src.len] == sfile[src.start..src.start + src.len];
      assert codec.inflate(stream[..src.len]) == codec.inflate(stream);
      if |src.data| == 0 { assert src.data == []; }
    }
  }

  ghost predicate PairsReady(codec: Codec, tfile: seq<byte>, tcs: seq<ImageChunk>, sfile: seq<byte>,
                             scs: seq<ImageChunk>, bonus: seq<byte>) {
    |tcs| == |scs| && forall i :: 0 <= i < |tcs| ==>
      PairReady(codec, tfile, tcs[i], sfile, scs[i], if i == 1 then bonus else [])
  }

  lemma MakesSnoc(codec: Codec, oldData: seq<byte>, ps: seq<PatchChunk>, xs: seq<Piece>, p: PatchChunk, x: Piece,
                  bonus: seq<byte>)
    requires MakesAll(codec, oldData, ps, xs, 0, bonus)
    requires Makes(codec, oldData, p, x, if |ps| == 1 then bonus else [])
    ensures MakesAll(codec, oldData, ps + [p], xs + [x], 0, bonus)
  {
    hide Makes;
    forall j | 0 <= j < |ps + [p]|
      ensures Makes(codec, oldData, (ps + [p])[j], (xs + [x])[j], if 0 + j == 1 then bonus else []) {
      if j < |ps| { assert Makes(codec, oldData, ps[j], xs[j], if 0 + j == 1 then bonus else []); }
    }
  }

  /** The pieces of the first n target chunks. */
  ghost predicate PiecesOf(tfile: seq<byte>, tcs: seq<ImageChunk>, xs: seq<Piece>) {
    |xs| <= |tcs| && forall i :: 0 <= i < |xs| ==> End(tcs[i]) <= |tfile| && xs[i].raw == RawData(tcs[i], tfile)
  }

  lemma PiecesSnoc(tfile: seq<byte>, tcs: seq<ImageChunk>, xs: seq<Piece>, x: Piece)
    requires PiecesOf(tfile, tcs, xs) && |xs| < |tcs| && End(tcs[|xs|]) <= |tfile| && x.raw == RawData(tcs[|xs|], tfile)
    ensures PiecesOf(tfile, tcs, xs + [x])
  {
  }

  /** Put together, the pieces are the part of the file that the chunks tile. */
  lemma {:induction false} PiecesAreFile(tfile: seq<byte>, tcs: seq<ImageChunk>, xs: seq<Piece>, from: nat, to: nat)
    requires Tiles(tcs, from, to) && PiecesOf(tfile, tcs, xs) && |xs| == |tcs| && from <= to <= |tfile|
    ensures RawConcat(xs) == tfile[from..to]
    decreases |xs|
  {
    if xs != [] {
      assert End(tcs[0]) <= |tfile| && xs[0].raw == RawData(tcs[0], tfile);
      TilesRest(tcs, from, to);
      TilesBounds(tcs, from, to, 0);
      forall i | 0 <= i < |xs[1..]|
        ensures End(tcs[1..][i]) <= |tfile| && xs[1..][i].raw == RawData(tcs[1..][i], tfile) {
        assert xs[1..][i] == xs[i + 1] && tcs[1..][i] == tcs[i + 1];
      }
      PiecesAreFile(tfile, tcs[1..], xs[1..], End(tcs[0]), to);
      assert tfile[from..to] == tfile[from..End(tcs[0])] + tfile[End(tcs[0])..to];
    }
  }

  /** bsdiff does not fail on a pair of chunks that it is asked about. */
  predicate Diffable(codec: Codec, tfile: seq<byte>, tgt: ImageChunk, sfile: seq<byte>, src: ImageChunk)
    requires End(tgt) <= |tfile| && End(src) <= |sfile|
  {
    RawDataIsSmaller(tgt, 0) || codec.bsdiff(DataForPatch(src, sfile), DataForPatch(tgt, tfile)).Some?
  }

  predicate AllDiffable(codec: Codec, tfile: seq<byte>, tcs: seq<ImageChunk>, sfile: seq<byte>, scs: seq<ImageChunk>) {
    |tcs| == |scs| &&
    forall i :: 0 <= i < |tcs| ==>
      End(tcs[i]) <= |tfile| && End(scs[i]) <= |sfile| && Diffable(codec, tfile, tcs[i], sfile, scs[i])
  }

  lemma PairPatchFor(codec: Codec, tfile: seq<byte>, tgt: ImageChunk, sfile: seq<byte>, src: ImageChunk,
                     extra: seq<byte>,
                     data: seq<byte>, sources: seq<ImageChunk>)
    requires PairReady(codec, tfile, tgt, sfile, src, extra) && src in sources
    ensures tgt.kind.Normal? ==> PatchFor(tgt, RawPatch(tgt, tfile), sources)
    ensures PatchFor(tgt, DiffPatch(tgt, tfile, src, sfile, data), sources)
  {
  }

  /** A normal chunk is stored as it is exactly if it is short or its patch is longer than it is. */
  ghost predicate ChosenForm(codec: Codec, tfile: seq<byte>, tgt: ImageChunk, sfile: seq<byte>, src: ImageChunk,
                             p: PatchChunk) {
    && End(tgt) <= |tfile| && End(src) <= |sfile|
    && (p.kind.Raw? <==>
          tgt.kind.Normal?
          && (tgt.len <= 160
              || var data := codec.bsdiff(DataForPatch(src, sfile), tfile[tgt.start..tgt.start + tgt.len]);
                 data.Some? && tgt.len < |data.value|))
  }

  lemma FormIs(codec: Codec, tfile: seq<byte>, tgt: ImageChunk, sfile: seq<byte>, src: ImageChunk, p: PatchChunk)
    requires End(tgt) <= |tfile| && End(src) <= |sfile| && !tgt.kind.Raw?
    requires var data := codec.bsdiff(DataForPatch(src, sfile), DataForPatch(tgt, tfile));
             if RawDataIsSmaller(tgt, 0) then p.kind.Raw?
             else data.Some? && (if RawDataIsSmaller(tgt, |data.value|) then p.kind.Raw? else p.kind == tgt.kind)
    ensures ChosenForm(codec, tfile, tgt, sfile, src, p)
  {
  }

  /** GeneratePatches: a patch for every pair of chunks, unless bsdiff fails. */
  method GeneratePatches(codec: Codec, tfile: seq<byte>, tcs: seq<ImageChunk>, sfile: seq<byte>, scs: seq<ImageChunk>,
                         ghost bonus: seq<byte>)
    returns (ps: Option<seq<PatchChunk>>, ghost xs: seq<Piece>)
    requires PairsReady(codec, tfile, tcs, sfile, scs, bonus) && LawfulInflate(codec)
    ensures ps.Some? <==> AllDiffable(codec, tfile, tcs, sfile, scs)
    ensures ps.Some? ==> |xs| == |tcs| && PiecesOf(tfile, tcs, xs) && MakesAll(codec, sfile, ps.value, xs, 0, bonus)
    ensures ps.Some? ==> |ps.value| == |tcs| && PatchesFor(tcs, ps.value, scs)
    ensures ps.Some? ==> forall i :: 0 <= i < |tcs| ==> ChosenForm(codec, tfile, tcs[i], sfile, scs[i], ps.value[i])
  {
    hide PiecesOf, MakesAll, Makes, LawfulInflate, Reproducible, SourceReady, PatchFor, PatchesFor, DataForPatch,
      ChosenForm;
    var patchChunks, i := [], 0;
    xs := [];
    NoPieces(codec, tfile, tcs, sfile, bonus, scs);
    while i < |tcs|
      invariant 0 <= i <= |tcs| && |xs| == |patchChunks| == i
      invariant PiecesOf(tfile, tcs, xs) && MakesAll(codec, sfile, patchChunks, xs, 0, bonus)
      invariant PatchesFor(tcs, patchChunks, scs)
      invariant forall j :: 0 <= j < i ==> ChosenForm(codec, tfile, tcs[j], sfile, scs[j], patchChunks[j])
      invariant forall j :: 0 <= j < i ==>
                  End(tcs[j]) <= |tfile| && End(scs[j]) <= |sfile| && Diffable(codec, tfile, tcs[j], sfile, scs[j])
    {
      var tgtChunk, srcChunk := tcs[i], scs[i];
      ghost var extra := if i == 1 then bonus else [];
      ReadyBounds(codec, tfile, tgtChunk, sfile, srcChunk, extra);
      ghost var x := PieceOf(tgtChunk, tfile, srcChunk, sfile);
      var p: PatchChunk;
      PairPatchFor(codec, tfile, tgtChunk, sfile, srcChunk, extra, [], scs);
      if RawDataIsSmaller(tgtChunk, 0) {
        p := RawPatch(tgtChunk, tfile);
        RawMakes(codec, tfile, tgtChunk, sfile, srcChunk, extra);
      } else {
        var patchData := codec.bsdiff(DataForPatch(srcChunk, sfile), DataForPatch(tgtChunk, tfile));
        if patchData.None? {
          assert !Diffable(codec, tfile, tcs[i], sfile, scs[i]);
          return None, xs;
        }
        if RawDataIsSmaller(tgtChunk, |patchData.value|) {
          p := RawPatch(tgtChunk, tfile);
          RawMakes(codec, tfile, tgtChunk, sfile, srcChunk, extra);
        } else {
          p := DiffPatch(tgtChunk, tfile, srcChunk, sfile, patchData.value);
          DiffMakes(codec, tfile, tgtChunk, sfile, srcChunk, extra, patchData.value);
          PairPatchFor(codec, tfile, tgtChunk, sfile, srcChunk, extra, patchData.value, scs);
        }
      }
      FormIs(codec, tfile, tgtChunk, sfile, srcChunk, p);
      MakesSnoc(codec, sfile, patchChunks, xs, p, x, bonus);
      PiecesSnoc(tfile, tcs, xs, x);
      PatchesForSnoc(tcs, patchChunks, scs, p);
      patchChunks, xs := patchChunks + [p], xs + [x];
      i := i + 1;
    }
    return Some(patchChunks), xs;
  }

  lemma NoPieces(codec: Codec, tfile: seq<byte>, tcs: seq<ImageChunk>, sfile: seq<byte>, bonus: seq<byte>,
                 sources: seq<ImageChunk>)
    ensures PiecesOf(tfile, tcs, []) && MakesAll(codec, sfile, [], [], 0, bonus) && PatchesFor(tcs, [], sources)
  {
  }

  lemma ReadyBounds(codec: Codec, tfile: seq<byte>, tgt: ImageChunk, sfile: seq<byte>, src: ImageChunk,
                    extra: seq<byte>)
    requires PairReady(codec, tfile, tgt, sfile, src, extra)
    ensures End(tgt) <= |tfile| && End(src) <= |sfile| && !tgt.kind.Raw?
  {
  }

  // ---------- imgdiff in image mode ----------

  lemma PairedIsReady(codec: Codec, tfile: seq<byte>, tcs: seq<ImageChunk>, sfile: seq<byte>, scs: seq<ImageChunk>,
                      scs': seq<ImageChunk>, bonus: seq<byte>)
    requires Paired(codec, tfile, tcs, sfile, scs, |tcs|)
    requires scs' == if bonus == [] then scs else if |scs| > 1 then scs[1 := scs[1].(data := scs[1].data + bonus)]
             else scs
    ensures PairsReady(codec, tfile, tcs, sfile, scs', bonus)
  {
    hide Reproducible, Tiles;
    PairedCounts(codec, tfile, tcs, sfile, scs);
    forall i | 0 <= i < |tcs| ensures PairReady(codec, tfile, tcs[i], sfile, scs'[i], if i == 1 then bonus else []) {
      PairedAt(codec, tfile, tcs, sfile, scs, i);
      assert Genuine(codec, sfile, scs[i]) && !tcs[i].kind.Raw?;
      assert scs[i].data + [] == scs[i].data;
    }
  }

  /** The source chunks once the bonus data is in. */
  function WithBonus(scs: seq<ImageChunk>, bonus: seq<byte>): seq<ImageChunk> {
    if bonus == [] || |scs| < 2 then scs else scs[1 := scs[1].(data := scs[1].data + bonus)]
  }

  /** The images have the same structure, bonus data has a chunk to go to, and bsdiff does not fail. */
  predicate HasPatch(codec: Codec, srcFile: seq<byte>, tgtFile: seq<byte>, bonus: seq<byte>) {
    var images := Processed(codec, tgtFile, srcFile);
    && images.Some?
    && (bonus == [] || (|images.value.src| >= 2 && images.value.src[1].kind.Deflate?))
    && AllDiffable(codec, tgtFile, images.value.tgt, srcFile, WithBonus(images.value.src, bonus))
  }

  /** Nothing inflates to 2^64 bytes, even with n more. */
  ghost predicate InflatesBelow(codec: Codec, n: nat) {
    forall x :: codec.inflate(x).Some? ==> |codec.inflate(x).value.output| + n < W8
  }

  /** imgdiff in image mode.  A patch comes out exactly when there is one; it makes the target from the
      source and the bonus data, exactly when no stream of the target inflates to nothing. */
  method Imgdiff(codec: Codec, srcFile: seq<byte>, tgtFile: seq<byte>, bonus: seq<byte>)
    returns (patch: Option<seq<byte>>)
    requires Lawful(codec) && |srcFile| <= SIZE_MAX && |tgtFile| <= SIZE_MAX
    requires FootersInRange(codec, srcFile) && FootersInRange(codec, tgtFile)
    ensures patch.Some? <==> HasPatch(codec, srcFile, tgtFile, bonus)
    ensures patch.Some? && |tgtFile| < W4 / 2 && |patch.value| < 8 * (W4 / 2) && InflatesBelow(codec, |bonus|) ==>
              ApplyPatch(codec, srcFile, patch.value, bonus) ==
              if NoEmptyStream(Processed(codec, tgtFile, srcFile).value.tgt) then Some(tgtFile) else None
  {
    hide Lawful, LawfulDiff, LawfulInflate, ConsumesInput, FootersInRange, Paired, PairsReady, PiecesOf, MakesAll,
    AllFit, FinishesAll,
      ApplyPatch, Container, Compact, CompactTypes, ChooseAll, FollowAll, Scan, Processed, PatchesFor, NoEmptyStream,
      InflatesBelow, AllDiffable;
    LawfulParts(codec);
    var srcImage := new Image(codec);
    var tgtImage := new Image(codec);
    srcImage.Initialize(srcFile);
    tgtImage.Initialize(tgtFile);
    ghost var tcs0, scs0 := tgtImage.chunks_, srcImage.chunks_;
    ProcessedMeans(codec, tgtFile, tcs0, srcFile, scs0);
    var ok := CheckAndProcessChunks(tgtImage, srcImage);
    if !ok { return None; }
    ghost var scs := srcImage.chunks_;
    if bonus != [] {
      ok := srcImage.SetBonusData(bonus);
      if !ok { return None; }
    }
    PairedIsReady(codec, tgtFile, tgtImage.chunks_, srcFile, scs, srcImage.chunks_, bonus);
    PairedTiles(codec, tgtFile, tgtImage.chunks_, srcFile, scs);
    ghost var xs;
    var patchChunks;
    patchChunks, xs := GeneratePatches(codec, tgtFile, tgtImage.chunks_, srcFile, srcImage.chunks_, bonus);
    if patchChunks.None? { return None; }
    var container := WritePatchDataToFd(patchChunks.value);
    patch := Some(container);
    NoEmptyStreamMeans(tgtImage.chunks_, patchChunks.value, srcImage.chunks_);
    if |tgtFile| < W4 / 2 && |container| < 8 * (W4 / 2) && InflatesBelow(codec, |bonus|) {
      PairedDataFits(codec, tgtFile, tgtImage.chunks_, srcFile, scs, bonus);
      PatchesFit(codec, srcFile, patchChunks.value, xs, bonus, tgtFile, tgtImage.chunks_, srcImage.chunks_);
      RoundTrip(codec, srcFile, patchChunks.value, xs, bonus);
      PiecesAreFile(tgtFile, tgtImage.chunks_, xs, 0, |tgtFile|);
      assert tgtFile[0..|tgtFile|] == tgtFile;
    }
  }

  /** CheckAndProcessChunks on what the scans find. */
  lemma ProcessedMeans(codec: Codec, tfile: seq<byte>, tcs: seq<ImageChunk>, sfile: seq<byte>, scs: seq<ImageChunk>)
    requires tcs == Scan(codec, tfile, 0) && scs == Scan(codec, sfile, 0)
    requires Tiles(tcs, 0, |tfile|) && Tiles(scs, 0, |sfile|)
    ensures Processed(codec, tfile, sfile).Some? <==> CompactTypes(Types(tcs)) == CompactTypes(Types(scs))
    ensures Processed(codec, tfile, sfile).Some? ==>
              && |Compact(tcs)| == |Compact(scs)|
              && var chosen := ChooseAll(codec, tfile, Compact(tcs), sfile, Compact(scs));
                 Processed(codec, tfile, sfile).value ==
                 Images(Compact(chosen), Compact(FollowAll(chosen, Compact(scs))))
  {
    hide Compact, CompactTypes, ChooseAll, FollowAll, Scan, Tiles;
    CompactByTypes(tcs, 0, |tfile|);
    CompactByTypes(scs, 0, |sfile|);
    assert |Types(Compact(tcs))| == |Compact(tcs)| && |Types(Compact(scs))| == |Compact(scs)|;
  }

  /** The data of the chunks is what their streams inflate to. */
  lemma PairedDataFits(codec: Codec, tfile: seq<byte>, tcs: seq<ImageChunk>, sfile: seq<byte>, scs: seq<ImageChunk>,
                       bonus: seq<byte>)
    requires Paired(codec, tfile, tcs, sfile, scs, |tcs|) && InflatesBelow(codec, |bonus|)
    ensures DataFits(tcs) && DataFits(WithBonus(scs, bonus))
  {
    GenuineFits(codec, tfile, tcs, |bonus|);
    GenuineFits(codec, sfile, scs, |bonus|);
  }

  lemma GenuineFits(codec: Codec, file: seq<byte>, cs: seq<ImageChunk>, n: nat)
    requires GenuineAll(codec, file, cs) && InflatesBelow(codec, n)
    ensures forall c :: c in cs && c.kind.Deflate? ==> |c.data| + n < W8
  {
    forall c | c in cs && c.kind.Deflate? ensures |c.data| + n < W8 {
      var i :| 0 <= i < |cs| && cs[i] == c;
      assert Genuine(codec, file, cs[i]);
    }
  }

  lemma LawfulParts(codec: Codec)
    requires Lawful(codec)
    ensures LawfulInflate(codec) && ConsumesInput(codec) && LawfulDiff(codec)
  {
  }

  lemma PairedTiles(codec: Codec, tfile: seq<byte>, tcs: seq<ImageChunk>, sfile: seq<byte>, scs: seq<ImageChunk>)
    requires Paired(codec, tfile, tcs, sfile, scs, |tcs|)
    ensures Tiles(tcs, 0, |tfile|)
  {
  }

  // ---------- a stream that inflates to nothing ----------

  /** A lawful codec with two empty deflate streams, of the bytes 1 and 2; deflating gives the first. */
  function EmptyCodec(): Codec {
    Codec((source, target) => if target == [] then Some([]) else None,
          (source, patch) => Some([]),
          stream => if stream != [] && 1 <= stream[0] <= 2 then Some(Inflated(1, [])) else None,
          (plain, params) => [1])
  }

  /** A gzip file with an empty stream. */
  function EmptyGzip(body: byte): seq<byte> {
    [0x1f, 0x8b, 8, 0, 0, 0, 0, 0, 0, 0] + [body] + [0, 0, 0, 0, 0, 0, 0, 0]
  }

  function EmptyChunks(): seq<ImageChunk> {
    [NormalChunk(0, 10), ImageChunk(Deflate, 10, 1, [], 6, ""), NormalChunk(11, 8)]
  }

  lemma EmptyCodecIsLawful()
    ensures Lawful(EmptyCodec())
  {
  }

  lemma EmptyBody(body: byte)
    requires 1 <= body <= 2
    ensures BodyAt(EmptyCodec(), EmptyGzip(body), 10) == Some(Inflated(1, []))
    ensures FootersInRange(EmptyCodec(), EmptyGzip(body))
  {
    var file := EmptyGzip(body);
    assert file[10..][0] == body;
    forall at: nat | MagicAt(file, at) ensures at == 0 {
      assert file[at..at + 4][0] == file[at] == 0x1f;
    }
  }

  lemma EmptyScan(body: byte)
    requires 1 <= body <= 2
    ensures Scan(EmptyCodec(), EmptyGzip(body), 0) == EmptyChunks()
  {
    hide BodyAt, EmptyCodec;
    var codec, file := EmptyCodec(), EmptyGzip(body);
    EmptyBody(body);
    assert MagicAt(file, 0);
    assert Scan(codec, file, 19) == [];
    assert ScanBody(codec, file, 10) == [EmptyChunks()[1], EmptyChunks()[2]] + Scan(codec, file, 19);
    assert Scan(codec, file, 0) == [EmptyChunks()[0]] + ScanBody(codec, file, 10);
  }

  lemma EmptyCompact()
    ensures Compact(EmptyChunks()) == EmptyChunks()
  {
    var cs := EmptyChunks();
    assert cs[1..] == [cs[1], cs[2]] && cs[1..][1..] == [cs[2]];
    assert Compact(cs[1..][1..]) == [cs[2]];
    assert Compact(cs[1..]) == [cs[1], cs[2]];
  }

  lemma EmptyProcessed()
    ensures Processed(EmptyCodec(), EmptyGzip(1), EmptyGzip(2)) == Some(Images(EmptyChunks(), EmptyChunks()))
  {
    hide Compact, Scan;
    var cs, codec, tfile, sfile := EmptyChunks(), EmptyCodec(), EmptyGzip(1), EmptyGzip(2);
    EmptyScan(1);
    EmptyScan(2);
    EmptyCompact();
    assert RawData(cs[1], tfile) == [1] && RawData(cs[1], sfile) == [2];
    var chosen := ChooseAll(codec, tfile, cs, sfile, cs);
    assert Choose(codec, tfile, cs[1], sfile, cs[1]) == cs[1];
    assert chosen == cs;
    assert FollowAll(chosen, cs) == cs;
  }

  function EmptyPatch(): seq<PatchChunk> {
    var cs := EmptyChunks();
    [RawPatch(cs[0], EmptyGzip(1)), DiffPatch(cs[1], EmptyGzip(1), cs[1], EmptyGzip(2), []),
      RawPatch(cs[2], EmptyGzip(1))]
  }

  /** imgdiff makes a patch of these two files that cannot be applied: the sink gets nothing, and the
      deflate stream is never finished. */
  lemma EmptyStream()
    ensures Lawful(EmptyCodec())
    ensures FootersInRange(EmptyCodec(), EmptyGzip(1)) && FootersInRange(EmptyCodec(), EmptyGzip(2))
    ensures HasPatch(EmptyCodec(), EmptyGzip(2), EmptyGzip(1), [])
    ensures !NoEmptyStream(Processed(EmptyCodec(), EmptyGzip(1), EmptyGzip(2)).value.tgt)
    ensures ApplyPatch(EmptyCodec(), EmptyGzip(2), Container(EmptyPatch()), []) == None
  {
    hide *;
    EmptyCodecIsLawful();
    LawfulParts(EmptyCodec());
    EmptyBody(1);
    EmptyBody(2);
    EmptyProcessed();
    EmptyDiffable();
    EmptyPatchMakes();
    EmptyPatchFits();
    EmptyNeverFinishes();
    RoundTrip(EmptyCodec(), EmptyGzip(2), EmptyPatch(), EmptyPieces(), []);
    EmptyHasPatch();
  }

  lemma EmptyDiffable()
    ensures AllDiffable(EmptyCodec(), EmptyGzip(1), EmptyChunks(), EmptyGzip(2), EmptyChunks())
    ensures !NoEmptyStream(EmptyChunks())
  {
    assert EmptyChunks()[1].kind.Deflate? && EmptyChunks()[1].data == [];
  }

  lemma EmptyHasPatch()
    requires Processed(EmptyCodec(), EmptyGzip(1), EmptyGzip(2)) == Some(Images(EmptyChunks(), EmptyChunks()))
    requires AllDiffable(EmptyCodec(), EmptyGzip(1), EmptyChunks(), EmptyGzip(2), EmptyChunks())
    ensures HasPatch(EmptyCodec(), EmptyGzip(2), EmptyGzip(1), [])
  {
    hide Processed, AllDiffable, EmptyChunks, EmptyGzip, EmptyCodec;
  }

  lemma EmptyNeverFinishes()
    ensures !FinishesAll(EmptyPatch())
  {
    assert !Finishes(EmptyPatch()[1]);
  }

  function EmptyPieces(): seq<Piece> {
    var cs, tfile, sfile := EmptyChunks(), EmptyGzip(1), EmptyGzip(2);
    [PieceOf(cs[0], tfile, cs[0], sfile), PieceOf(cs[1], tfile, cs[1], sfile), PieceOf(cs[2], tfile, cs[2], sfile)]
  }

  lemma EmptyPatchMakes()
    ensures MakesAll(EmptyCodec(), EmptyGzip(2), EmptyPatch(), EmptyPieces(), 0, [])
  {
    assert RawData(EmptyChunks()[1], EmptyGzip(1)) == [1];
  }

  lemma EmptyPatchFits()
    ensures AllFit(EmptyPatch())
  {
    hide Headers, Bodies, HeaderSizes, Header;
    var ps := EmptyPatch();
    ThreeParts(ps);
    HeadersLength(ps, 12 + HeaderSizes(ps));
  }

  lemma ThreeParts(ps: seq<PatchChunk>)
    requires |ps| == 3
    ensures HeaderSizes(ps) == HeaderSize(ps[0]) + HeaderSize(ps[1]) + HeaderSize(ps[2])
    ensures Bodies(ps) == Body(ps[0]) + Body(ps[1]) + Body(ps[2])
  {
    hide HeaderSize, Body;
    var two, one := ps[1..], ps[2..];
    assert two[1..] == one && one[1..] == [];
    assert Bodies(one) == Body(ps[2]) && HeaderSizes(one) == HeaderSize(ps[2]);
    assert Bodies(two) == Body(ps[1]) + Body(ps[2]);
  }
}
