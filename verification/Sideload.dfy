/** The block cache of the sideload file system.  The host that serves the package may answer
    differently each time it is asked; what is handed to readers must still be one fixed file. */
module Sideload {
  import opened Basics
  import opened RangeSets

  /** SHA-256, taken to be injective; the all-zero hash is `None`. */
  datatype Digest = Digest(content: seq<bv8>)

  /** What the host does with a request: a status, and the bytes it puts into the buffer. */
  datatype Answer = Answer(status: int, bytes: nat -> bv8)

  datatype Request = Request(offset: nat, size: nat, first: Answer, second: Answer)

  const W32: nat := 0x1_0000_0000

  /** currBlock when the buffer holds no block: -1 as an unsigned number. */
  const NO_BLOCK: nat := W32 - 1

  const EIO: int := 5

  /** Unsigned 32-bit multiplication. */
  function Mul32(a: nat, b: nat): nat {
    a * b % W32
  }

  function Zeros(n: nat): seq<bv8> {
    seq(n, _ => 0)
  }

  function BlockCount(fileSize: nat, blockSize: nat): nat
    requires blockSize > 0
  {
    if fileSize == 0 then 0 else (fileSize - 1) / blockSize + 1
  }

  // ---------- positions ----------

  function BlockOf(p: nat, blockSize: nat): nat
    requires blockSize > 0
  {
    p / blockSize
  }

  function InBlock(p: nat, blockSize: nat): nat
    requires blockSize > 0
  {
    p % blockSize
  }

  /** Position i of a block, in the file. */
  function At(block: nat, i: nat, blockSize: nat): nat {
    block * blockSize + i
  }

  lemma DivFloor(a: nat, b: nat)
    requires b > 0
    ensures a / b * b <= a < (a / b + 1) * b && a == a / b * b + a % b
  {
  }

  lemma PartsAt(p: nat, blockSize: nat)
    requires blockSize > 0
    ensures At(BlockOf(p, blockSize), InBlock(p, blockSize), blockSize) == p && InBlock(p, blockSize) < blockSize
  {
    DivFloor(p, blockSize);
  }

  lemma AtParts(block: nat, i: nat, blockSize: nat)
    requires i < blockSize
    ensures BlockOf(At(block, i, blockSize), blockSize) == block && InBlock(At(block, i, blockSize), blockSize) == i
  {
    var p := block * blockSize + i;
    DivFloor(p, blockSize);
    if p / blockSize < block { MulLe(p / blockSize + 1, block, blockSize); }
    if p / blockSize > block { MulLe(block + 1, p / blockSize, blockSize); }
  }

  lemma AtAdd(block: nat, i: nat, j: nat, blockSize: nat)
    ensures At(block, i, blockSize) + j == At(block, i + j, blockSize)
    ensures At(block, blockSize, blockSize) == At(block + 1, 0, blockSize)
  {
  }

  /** The blocks are as many as the file needs: a position is in the file only if its block is one of them. */
  lemma BlocksOfFile(fileSize: nat, blockSize: nat, p: nat)
    requires 0 < blockSize
    ensures p < fileSize ==> BlockOf(p, blockSize) < BlockCount(fileSize, blockSize)
    ensures BlockOf(p, blockSize) < BlockCount(fileSize, blockSize) ==>
              At(BlockOf(p, blockSize), 0, blockSize) < fileSize
  {
    hide BlockOf, BlockCount;
    BlockStart(p, blockSize);
    if fileSize > 0 {
      BlockStart(fileSize - 1, blockSize);
      ProductOrder(BlockOf(p, blockSize), BlockOf(fileSize - 1, blockSize), p, fileSize - 1, blockSize);
    }
    CountOf(fileSize, blockSize);
  }

  lemma BlockStart(p: nat, blockSize: nat)
    requires 0 < blockSize
    ensures BlockOf(p, blockSize) * blockSize <= p < BlockOf(p, blockSize) * blockSize + blockSize
  {
    DivFloor(p, blockSize);
  }

  lemma CountOf(fileSize: nat, blockSize: nat)
    requires 0 < blockSize
    ensures BlockCount(fileSize, blockSize) == if fileSize == 0 then 0 else BlockOf(fileSize - 1, blockSize) + 1
  {
  }

  lemma ProductOrder(b: nat, q: nat, p: nat, last: nat, d: nat)
    requires b * d <= p && q * d <= last < q * d + d
    ensures p <= last ==> b <= q
    ensures b <= q ==> b * d <= last
  {
    if b > q { MulLe(q + 1, b, d); } else { MulLe(b, q, d); }
  }

  /** For a file of at most 2^32 bytes the wrapping product is exact, and only the last block is short. */
  lemma LastBlock(fileSize: nat, blockSize: nat, block: nat)
    requires 0 < blockSize && fileSize <= W32 && block < BlockCount(fileSize, blockSize)
    ensures Mul32(block, blockSize) == At(block, 0, blockSize) < fileSize
    ensures At(block, blockSize, blockSize) > fileSize ==> block == BlockCount(fileSize, blockSize) - 1
  {
    var q := (fileSize - 1) / blockSize;
    MulLe(block, q, blockSize);
    DivFloor(fileSize - 1, blockSize);
    if block < q { MulLe(block + 1, q, blockSize); }
  }

  /** Number of live cache entries. */
  function Live(cache: seq<Option<seq<bv8>>>): nat {
    if cache == [] then 0 else Live(cache[..|cache| - 1]) + (if cache[|cache| - 1].Some? then 1 else 0)
  }

  lemma {:induction false} LiveUpdate(cache: seq<Option<seq<bv8>>>, i: nat, v: Option<seq<bv8>>)
    requires i < |cache|
    ensures Live(cache[i := v]) == Live(cache) - (if cache[i].Some? then 1 else 0) + (if v.Some? then 1 else 0)
  {
    var n := |cache| - 1;
    if i < n {
      LiveUpdate(cache[..n], i, v);
      assert cache[i := v][..n] == cache[..n][i := v];
    } else {
      assert cache[i := v][..n] == cache[..n];
    }
  }

  lemma {:induction false} LiveExists(cache: seq<Option<seq<bv8>>>)
    ensures Live(cache) > 0 ==> exists i :: 0 <= i < |cache| && cache[i].Some?
    ensures Live(cache) <= |cache|
  {
    if cache != [] {
      var n := |cache| - 1;
      LiveExists(cache[..n]);
      if Live(cache[..n]) > 0 {
        var i :| 0 <= i < n && cache[..n][i].Some?;
        assert cache[i].Some?;
      }
    }
  }

  function NoEntries(n: nat): seq<Option<seq<bv8>>> {
    seq(n, _ => None)
  }

  lemma {:induction false} LiveNone(n: nat)
    ensures Live(NoEntries(n)) == 0
  {
    if n > 0 {
      LiveNone(n - 1);
      assert NoEntries(n)[..n - 1] == NoEntries(n - 1);
    }
  }

  /** The first contents seen of the blocks of a file. */
  datatype Frozen = Frozen(accepted: map<nat, seq<bv8>>, blocks: nat, blockSize: nat)

  ghost predicate Known(f: Frozen, b: nat) {
    b >= f.blocks || b in f.accepted
  }

  /** The content of a block; zeros past the end of the file. */
  ghost function Content(f: Frozen, b: nat): seq<bv8>
    requires Known(f, b)
  {
    if b >= f.blocks then Zeros(f.blockSize) else f.accepted[b]
  }

  /** The byte of the fixed file at a position. */
  ghost predicate FileByteIs(f: Frozen, p: nat, v: bv8) {
    f.blockSize > 0
    && var b, i := BlockOf(p, f.blockSize), InBlock(p, f.blockSize);
       Known(f, b) && i < |Content(f, b)| && v == Content(f, b)[i]
  }

  /** The reply is a piece of the fixed file. */
  ghost predicate Serves(f: Frozen, offset: nat, reply: seq<bv8>) {
    forall i :: 0 <= i < |reply| ==> FileByteIs(f, offset + i, reply[i])
  }

  /** More blocks of the same file are known. */
  ghost predicate Grows(f: Frozen, g: Frozen) {
    g.blocks == f.blocks && g.blockSize == f.blockSize
    && forall b :: b in f.accepted ==> b in g.accepted && g.accepted[b] == f.accepted[b]
  }

  lemma GrowsTransitive(f: Frozen, g: Frozen, h: Frozen)
    requires Grows(f, g) && Grows(g, h)
    ensures Grows(f, h)
  {
  }

  lemma GrowsSelf(f: Frozen)
    ensures Grows(f, f)
  {
  }

  ghost predicate AllServed(f: Frozen, requests: seq<Request>, replies: seq<Option<seq<bv8>>>) {
    |replies| <= |requests|
    && forall k :: 0 <= k < |replies| && replies[k].Some? ==>
         |replies[k].value| == requests[k].size && Serves(f, requests[k].offset, replies[k].value)
  }

  lemma StillServed(f: Frozen, g: Frozen, requests: seq<Request>, replies: seq<Option<seq<bv8>>>)
    requires AllServed(f, requests, replies) && Grows(f, g)
    ensures AllServed(g, requests, replies)
  {
    hide Serves, Grows;
    forall k | 0 <= k < |replies| && replies[k].Some? ensures Serves(g, requests[k].offset, replies[k].value) {
      StillServes(f, g, requests[k].offset, replies[k].value);
    }
  }

  /** A piece of one block. */
  lemma ServesBlock(f: Frozen, block: nat, from: nat, to: nat)
    requires Known(f, block) && |Content(f, block)| == f.blockSize && from <= to <= f.blockSize
    ensures Serves(f, At(block, from, f.blockSize), Content(f, block)[from..to])
  {
    hide At, BlockOf, InBlock;
    var piece := Content(f, block)[from..to];
    forall i | 0 <= i < |piece| ensures FileByteIs(f, At(block, from, f.blockSize) + i, piece[i]) {
      AtAdd(block, from, i, f.blockSize);
      AtParts(block, from + i, f.blockSize);
    }
  }

  lemma ServesAppend(f: Frozen, offset: nat, a: seq<bv8>, b: seq<bv8>)
    requires Serves(f, offset, a) && Serves(f, offset + |a|, b)
    ensures Serves(f, offset, a + b)
  {
    hide FileByteIs;
    forall i | 0 <= i < |a + b| ensures FileByteIs(f, offset + i, (a + b)[i]) {
      if i >= |a| { assert FileByteIs(f, (offset + |a|) + (i - |a|), b[i - |a|]); }
    }
  }

  /** What has been served stays the file. */
  lemma StillServes(f: Frozen, g: Frozen, offset: nat, reply: seq<bv8>)
    requires Serves(f, offset, reply) && Grows(f, g)
    ensures Serves(g, offset, reply)
  {
    hide BlockOf, InBlock;
    forall i | 0 <= i < |reply| ensures FileByteIs(g, offset + i, reply[i]) {
      assert FileByteIs(f, offset + i, reply[i]);
    }
  }

  /** Two replies agree wherever they meet. */
  lemma RepliesAgree(f: Frozen, p: nat, x: seq<bv8>, q: nat, y: seq<bv8>, i: nat, j: nat)
    requires Serves(f, p, x) && Serves(f, q, y) && i < |x| && j < |y| && p + i == q + j
    ensures x[i] == y[j]
  {
    hide BlockOf, InBlock;
    assert FileByteIs(f, p + i, x[i]) && FileByteIs(f, q + j, y[j]);
  }

  /** The data for a file of that size, from position p on, are the bytes of the answer from `from` on, and
      zero past the end of the file. */
  ghost predicate FromAnswer(fileSize: nat, p: nat, data: seq<bv8>, a: Answer, from: nat) {
    forall i :: 0 <= i < |data| ==> data[i] == if p + i < fileSize then a.bytes(from + i) else 0
  }

  lemma AnswerSlice(fileSize: nat, p: nat, data: seq<bv8>, a: Answer, from: nat, to: nat)
    requires FromAnswer(fileSize, p, data, a, 0) && from <= to <= |data|
    ensures FromAnswer(fileSize, p + from, data[from..to], a, from)
  {
    var piece := data[from..to];
    forall i | 0 <= i < |piece| ensures piece[i] == if p + from + i < fileSize then a.bytes(from + i) else 0 {
      assert piece[i] == data[from + i];
    }
  }

  class FuseData {
    const fileSize: nat
    const blockSize: nat
    const fileBlocks: nat
    var currBlock: nat
    var blockData: seq<bv8>
    var extraBlock: seq<bv8>
    var hashes: seq<Option<Digest>>
    const blockCacheMaxSize: nat
    var blockCacheSize: nat
    var blockCache: Option<seq<Option<seq<bv8>>>>
    /** The block contents handed out so far. */
    ghost var accepted: map<nat, seq<bv8>>
    /** A read from the host has failed since the buffer was filled, and may have changed it. */
    ghost var stale: bool

    ghost predicate Sizes()
      reads this
    {
      && 4096 <= blockSize <= 0x40_0000 && fileSize <= W32 && fileBlocks == BlockCount(fileSize, blockSize) <= 0x4_0000
      && |blockData| == blockSize && |extraBlock| == blockSize && |hashes| == fileBlocks
    }

    /** The hashes are those of the accepted blocks, which are zero past the end of the file. */
    ghost predicate Hashed()
      reads this
      requires Sizes()
    {
      && (forall b :: 0 <= b < fileBlocks ==> (b in accepted <==> hashes[b].Some?))
      && (forall b :: b in accepted ==> b < fileBlocks && hashes[b] == Some(Digest(accepted[b])))
      && (forall b :: b in accepted ==> ZeroPadded(b, accepted[b]))
    }

    ghost predicate ZeroPadded(b: nat, data: seq<bv8>) {
      |data| == blockSize && forall i :: 0 <= i < blockSize && At(b, i, blockSize) >= fileSize ==> data[i] == 0
    }

    ghost predicate Cached()
      reads this
    {
      match blockCache
      case None => blockCacheSize == 0
      case Some(c) =>
        && 2 <= blockCacheMaxSize && |c| == fileBlocks && blockCacheSize == Live(c) <= blockCacheMaxSize
        && forall b :: 0 <= b < |c| && c[b].Some? ==> b in accepted && c[b].value == accepted[b]
    }

    /** The fixed file, as far as it is known. */
    ghost function File(): Frozen
      reads this
    {
      Frozen(accepted, fileBlocks, blockSize)
    }

    ghost predicate Buffered()
      reads this
    {
      !stale && currBlock != NO_BLOCK ==> Known(File(), currBlock) && blockData == Content(File(), currBlock)
    }

    ghost predicate Valid()
      reads this
    {
      Sizes() && Hashed() && Cached() && Buffered()
    }

    constructor (fileSize: nat, blockSize: nat, maxSize: nat, caching: bool)
      requires 4096 <= blockSize <= 0x40_0000 && fileSize <= W32 && BlockCount(fileSize, blockSize) <= 0x4_0000
      requires caching ==> 2 <= maxSize
      ensures Valid() && accepted == map[] && !stale && currBlock == NO_BLOCK && (blockCache.Some? <==> caching)
      ensures this.fileSize == fileSize && this.blockSize == blockSize
    {
      this.fileSize, this.blockSize := fileSize, blockSize;
      fileBlocks := BlockCount(fileSize, blockSize);
      currBlock, blockData, extraBlock := NO_BLOCK, Zeros(blockSize), Zeros(blockSize);
      hashes := seq(BlockCount(fileSize, blockSize), _ => None);
      blockCacheMaxSize, blockCacheSize := maxSize, 0;
      blockCache := if caching then Some(NoEntries(BlockCount(fileSize, blockSize))) else None;
      accepted, stale := map[], false;
      LiveNone(BlockCount(fileSize, blockSize));
    }

    method BlockCacheFetch(block: nat) returns (hit: bool)
      requires Valid() && block < fileBlocks
      modifies this`blockData
      ensures hit ==> block in accepted && blockData == accepted[block]
      ensures !hit ==> blockData == old(blockData)
      ensures hit <==> blockCache.Some? && blockCache.value[block].Some?
    {
      if blockCache.None? || blockCache.value[block].None? { return false; }
      blockData := blockCache.value[block].value;
      return true;
    }

    /** The scan for a block to evict: backward from the current block, around the end of the file.  It
        stops at a live entry, which is not that of the current block. */
    method FindVictim(cache: seq<Option<seq<bv8>>>) returns (victim: nat)
      requires |cache| == fileBlocks && currBlock < fileBlocks <= 0x4_0000 && Live(cache) > 0 && cache[currBlock].None?
      ensures victim < |cache| && cache[victim].Some? && victim != currBlock
    {
      LiveExists(cache);
      ghost var l :| 0 <= l < |cache| && cache[l].Some?;
      var n: int := currBlock - 1;
      ghost var wrapped := false;
      while n != currBlock
        invariant if wrapped then currBlock <= n < fileBlocks && l <= n && currBlock < l
                  else -1 <= n < currBlock && (l < currBlock ==> l <= n)
        decreases if wrapped then 0 else 1, n + 1
      {
        if n < 0 {
          n := fileBlocks - 1;
          wrapped := true;
        }
        if cache[n].Some? { return n; }
        n := n - 1;
      }
      assert false;
    }

    /** No block but this one has come into the cache. */
    ghost predicate OnlyAdds(before: Option<seq<Option<seq<bv8>>>>, after: Option<seq<Option<seq<bv8>>>>, block: nat) {
      before.Some? && after.Some? ==>
        && |after.value| == |before.value|
        && forall k :: 0 <= k < |after.value| && k != block && before.value[k].None? ==> after.value[k].None?
    }

    /** Put the buffer into the cache, making room for it first. */
    method BlockCacheEnter(block: nat)
      requires Sizes() && Cached() && block == currBlock < fileBlocks && block in accepted
               && blockData == accepted[block]
      requires blockCache.Some? ==> blockCache.value[block].None?
      modifies this`blockCache, this`blockCacheSize
      ensures Cached() && (blockCache.Some? <==> old(blockCache).Some?)
      ensures blockCache.Some? ==> blockCache.value[block] == Some(blockData)
      ensures OnlyAdds(old(blockCache), blockCache, block)
    {
      if blockCache.None? { return; }
      var cache := blockCache.value;
      if blockCacheSize == blockCacheMaxSize {
        var n := FindVictim(cache);
        LiveUpdate(cache, n, None);
        cache := cache[n := None];
        blockCacheSize := blockCacheSize - 1;
      }
      LiveUpdate(cache, block, Some(blockData));
      blockCache := Some(cache[block := Some(blockData)]);
      blockCacheSize := blockCacheSize + 1;
    }

    /** Bytes the host is asked for. */
    function FetchSize(block: nat): (n: nat)
      requires 0 < blockSize && fileSize <= W32 && fileBlocks == BlockCount(fileSize, blockSize) && block < fileBlocks
      ensures n <= blockSize && At(block, n, blockSize) <= fileSize
      ensures n < blockSize ==> At(block, n, blockSize) == fileSize
    {
      LastBlock(fileSize, blockSize, block);
      if Mul32(block, blockSize) + blockSize > fileSize then fileSize - Mul32(block, blockSize) else blockSize
    }

    /** The buffer after the host has been asked for a block: padded with zeros if the block is short. */
    function Received(block: nat, a: Answer): (data: seq<bv8>)
      requires 0 < blockSize && fileSize <= W32 && fileBlocks == BlockCount(fileSize, blockSize) && block < fileBlocks
      ensures |data| == blockSize
    {
      seq(FetchSize(block), i requires 0 <= i => a.bytes(i)) + Zeros(blockSize - FetchSize(block))
    }

    lemma ReceivedPadded(block: nat, a: Answer)
      requires 0 < blockSize && fileSize <= W32 && fileBlocks == BlockCount(fileSize, blockSize) && block < fileBlocks
      ensures ZeroPadded(block, Received(block, a))
    {
      hide Mul32, BlockCount, FetchSize;
    }

    lemma ReceivedIsAnswer(block: nat, a: Answer)
      requires 0 < blockSize && fileSize <= W32 && fileBlocks == BlockCount(fileSize, blockSize) && block < fileBlocks
      ensures FromAnswer(fileSize, At(block, 0, blockSize), Received(block, a), a, 0)
    {
      hide Mul32, BlockCount, FetchSize, At;
      var n, data, p := FetchSize(block), Received(block, a), At(block, 0, blockSize);
      AtAdd(block, 0, n, blockSize);
      forall i | 0 <= i < |data| ensures data[i] == if p + i < fileSize then a.bytes(0 + i) else 0 {
        if i >= n { assert p + n == fileSize; }
      }
    }

    predicate MustAsk(block: nat)
      reads this
    {
      block != currBlock && block < fileBlocks
      && (blockCache.Some? && block < |blockCache.value| ==> blockCache.value[block].None?)
    }

    /** Fetch a block into the buffer.  Only a block whose hash is the one first seen is let through. */
    method FetchBlock(block: nat, a: Answer) returns (result: int)
      requires Valid() && block < NO_BLOCK
      modifies this`currBlock, this`blockData, this`hashes, this`blockCache, this`blockCacheSize, this`accepted,
      this`stale
      ensures Valid()
      ensures Grows(old(File()), File())
      ensures result == 0 ==> currBlock == block
      ensures result == 0 && !old(stale && block == currBlock) ==>
                !stale && Known(File(), block) && blockData == Content(File(), block)
      ensures stale && !old(stale) ==> a.status < 0
      ensures !old(MustAsk(block)) ==> result == 0 && accepted == old(accepted)
      ensures block == old(currBlock) ==> blockData == old(blockData) && blockCache == old(blockCache)
      ensures blockCache.Some? <==> old(blockCache).Some?
      ensures OnlyAdds(old(blockCache), blockCache, block)
      ensures old(MustAsk(block)) && a.status < 0 ==>
                result == a.status && currBlock == old(currBlock) && stale && blockData == Received(block, a)
      ensures old(MustAsk(block)) && a.status >= 0 ==>
                (result == 0 <==> block in old(accepted) ==> Received(block, a) == old(accepted)[block])
                && (result == 0 ==> block in accepted && accepted[block] == Received(block, a))
      ensures old(MustAsk(block)) && result == 0 ==> FromAnswer(fileSize, At(block, 0, blockSize), blockData, a, 0)
    {
      hide Mul32, BlockCount, FetchSize, At, Received, Live, FromAnswer;
      if block == currBlock { return 0; }
      if block >= fileBlocks {
        blockData := Zeros(blockSize);
        currBlock, stale := block, false;
        return 0;
      }
      var hit := BlockCacheFetch(block);
      if hit {
        currBlock, stale := block, false;
        return 0;
      }
      result := AskHost(block, a);
    }

    /** A block that is neither in the buffer nor in the cache. */
    method AskHost(block: nat, a: Answer) returns (result: int)
      requires Valid() && block < NO_BLOCK && MustAsk(block)
      modifies this`currBlock, this`blockData, this`hashes, this`blockCache, this`blockCacheSize, this`accepted,
      this`stale
      ensures Valid() && Grows(old(File()), File())
      ensures result == 0 ==>
                currBlock == block && !stale && Known(File(), block) && blockData == Content(File(), block)
      ensures stale && !old(stale) ==> a.status < 0
      ensures blockCache.Some? <==> old(blockCache).Some?
      ensures OnlyAdds(old(blockCache), blockCache, block)
      ensures a.status < 0 ==>
                result == a.status && currBlock == old(currBlock) && stale && blockData == Received(block, a)
      ensures a.status >= 0 ==>
                (result == 0 <==> block in old(accepted) ==> Received(block, a) == old(accepted)[block])
                && (result == 0 ==> block in accepted && accepted[block] == Received(block, a))
      ensures result == 0 ==> FromAnswer(fileSize, At(block, 0, blockSize), blockData, a, 0)
    {
      hide Mul32, BlockCount, FetchSize, At, Received, Live, FromAnswer, ZeroPadded;
      ReceivedIsAnswer(block, a);
      blockData := Received(block, a);
      if a.status < 0 {
        stale := true;
        return a.status;
      }
      currBlock, stale := block, false;
      ReceivedPadded(block, a);
      var hash := Digest(blockData);
      var blockhash := hashes[block];
      if blockhash == Some(hash) { return 0; }
      if blockhash.Some? {
        currBlock := NO_BLOCK;
        return -EIO;
      }
      Accept(block, hash);
      BlockCacheEnter(block);
      return 0;
    }

    /** The first content seen of a block is the one it keeps. */
    method Accept(block: nat, hash: Digest)
      requires Sizes() && Hashed() && Cached() && block < fileBlocks && hashes[block].None? && hash == Digest(blockData)
      requires ZeroPadded(block, blockData)
      modifies this`hashes, this`accepted
      ensures Sizes() && Hashed() && Cached() && accepted == old(accepted)[block := blockData]
              && blockCache == old(blockCache)
      ensures blockCache.Some? ==> blockCache.value[block].None?
    {
      hashes := hashes[block := Some(hash)];
      accepted := accepted[block := blockData];
    }

    lemma KnownContent(b: nat)
      requires Valid() && Known(File(), b)
      ensures |Content(File(), b)| == blockSize
    {
      hide At, BlockCount;
    }

    /** Past the end of the file the fixed file is zero. */
    lemma ZeroPastEnd(p: nat, v: bv8)
      requires Valid() && FileByteIs(File(), p, v) && p >= fileSize
      ensures v == 0
    {
      hide At, BlockOf, InBlock, BlockCount;
      PartsAt(p, blockSize);
      var b := BlockOf(p, blockSize);
      if b < fileBlocks { assert ZeroPadded(b, accepted[b]); }
    }

    /** Keep the rest of the block while the next one is fetched. */
    method SaveToExtra(blockOffset: nat)
      requires Valid() && blockOffset <= blockSize
      modifies this`extraBlock
      ensures Valid() && extraBlock[..blockSize - blockOffset] == blockData[blockOffset..blockSize]
    {
      hide At, BlockCount, Live;
      extraBlock := blockData[blockOffset..] + extraBlock[blockSize - blockOffset..];
    }

    /** handle_read: a read of at most a block, which may span two. */
    method HandleRead(r: Request) returns (result: int, reply: seq<bv8>)
      requires Valid() && r.size <= blockSize && BlockOf(r.offset, blockSize) < NO_BLOCK - 1
      modifies this
      ensures Valid()
      ensures Grows(old(File()), File())
      ensures result == 0 ==> |reply| == r.size
      ensures result == 0 && !(old(stale) && BlockOf(r.offset, blockSize) == old(currBlock)) ==>
                Serves(File(), r.offset, reply)
      ensures stale && !old(stale) ==> r.first.status < 0 || r.second.status < 0
      // A failed request leaves the block number and changes the buffer, and a later read of that
      // block is answered from the buffer as it is.
      ensures old(MustAsk(BlockOf(r.offset, blockSize))) && r.first.status < 0 ==>
                result == r.first.status && currBlock == old(currBlock) && stale
                && blockData == Received(BlockOf(r.offset, blockSize), r.first)
      ensures BlockOf(r.offset, blockSize) == old(currBlock) && InBlock(r.offset, blockSize) + r.size <= blockSize ==>
                && result == 0
                && reply == old(blockData)[InBlock(r.offset, blockSize)..InBlock(r.offset, blockSize) + r.size]
                && currBlock == old(currBlock) && blockData == old(blockData) && blockCache == old(blockCache)
      // If it goes on into the next block, only the part from the buffer is wrong.
      ensures BlockOf(r.offset, blockSize) == old(currBlock) && result == 0
              && InBlock(r.offset, blockSize) + r.size > blockSize ==>
                var firstLen := blockSize - InBlock(r.offset, blockSize);
                && reply[..firstLen] == old(blockData)[InBlock(r.offset, blockSize)..]
                && Serves(File(), r.offset + firstLen, reply[firstLen..])
      // What comes from the host is at its place.
      ensures result == 0 && old(MustAsk(BlockOf(r.offset, blockSize))) ==>
                FromAnswer(fileSize, r.offset, reply[..Min(r.size, blockSize - InBlock(r.offset, blockSize))], r.first,
                           InBlock(r.offset, blockSize))
      ensures result == 0 && InBlock(r.offset, blockSize) + r.size > blockSize
              && old(MustAsk(BlockOf(r.offset, blockSize) + 1)) ==>
                var firstLen := blockSize - InBlock(r.offset, blockSize);
                FromAnswer(fileSize, r.offset + firstLen, reply[firstLen..], r.second, 0)
    {
      hide At, BlockOf, InBlock, BlockCount, Sizes, Hashed, Cached, Serves, Known, Content, Received, FetchSize, Grows,
        FromAnswer;
      ValidSizes();
      ghost var asked, askedNext := MustAsk(BlockOf(r.offset, blockSize)), MustAsk(BlockOf(r.offset, blockSize) + 1);
      PartsAt(r.offset, blockSize);
      reply := [];
      var block := BlockOf(r.offset, blockSize);
      result := FetchBlock(block, r.first);
      if result != 0 { return; }
      ValidSizes();
      var blockOffset := r.offset - At(block, 0, blockSize);
      AtAdd(block, 0, InBlock(r.offset, blockSize), blockSize);
      ghost var good := !old(stale && BlockOf(r.offset, blockSize) == currBlock);
      if good { KnownContent(block); }
      if r.size + blockOffset <= blockSize {
        reply := blockData[blockOffset..blockOffset + r.size];
        if good { ServesBlock(File(), block, blockOffset, blockOffset + r.size); }
        if asked { AnswerSlice(fileSize, At(block, 0, blockSize), blockData, r.first, blockOffset,
          blockOffset + r.size); }
        assert reply[..r.size] == reply;
        return;
      }
      if asked { AnswerSlice(fileSize, At(block, 0, blockSize), blockData, r.first, blockOffset, blockSize); }
      ghost var head, file := blockData[blockOffset..blockSize], File();
      assert |blockData| == blockSize && head == blockData[blockOffset..];
      assert block == old(currBlock) ==> head == old(blockData)[InBlock(r.offset, blockSize)..];
      if good { ServesBlock(File(), block, blockOffset, blockSize); }
      AtAdd(block, blockOffset, blockSize - blockOffset, blockSize);
      assert askedNext ==> MustAsk(block + 1);
      result, reply := ReadOn(r, block, blockOffset);
      GrowsTransitive(old(File()), file, File());
      if result != 0 { return; }
      assert reply[..blockSize - blockOffset] == head;
      if good {
        StillServes(file, File(), r.offset, head);
        ServesAppend(File(), r.offset, head, reply[blockSize - blockOffset..]);
        assert head + reply[blockSize - blockOffset..] == reply;
      }
    }

    /** The read goes on into the next block: the rest of the first one is kept aside. */
    method ReadOn(r: Request, block: nat, blockOffset: nat) returns (result: int, reply: seq<bv8>)
      requires Valid() && blockOffset <= blockSize && block < NO_BLOCK - 1 && currBlock == block
      requires blockSize - blockOffset < r.size <= blockSize
      modifies this
      ensures Valid() && Grows(old(File()), File())
      ensures stale && !old(stale) ==> r.second.status < 0
      ensures result == 0 ==>
                && |reply| == r.size && reply[..blockSize - blockOffset] == old(blockData)[blockOffset..blockSize]
                && Serves(File(), At(block + 1, 0, blockSize), reply[blockSize - blockOffset..])
      ensures result == 0 && old(MustAsk(block + 1)) ==>
                FromAnswer(fileSize, At(block + 1, 0, blockSize), reply[blockSize - blockOffset..], r.second, 0)
    {
      hide At, BlockOf, InBlock, BlockCount, Sizes, Hashed, Cached, Serves, Known, Content, Received, FetchSize, Grows,
        FromAnswer;
      reply := [];
      ValidSizes();
      ghost var askedNext := MustAsk(block + 1);
      SaveToExtra(blockOffset);
      ValidSizes();
      var firstLen := blockSize - blockOffset;
      result := FetchBlock(block + 1, r.second);
      if result != 0 { return; }
      ValidSizes();
      reply := extraBlock[..firstLen] + blockData[..r.size - firstLen];
      KnownContent(block + 1);
      ServesBlock(File(), block + 1, 0, r.size - firstLen);
      if askedNext { AnswerSlice(fileSize, At(block + 1, 0, blockSize), blockData, r.second, 0, r.size - firstLen); }
      assert reply[firstLen..] == blockData[..r.size - firstLen];
    }

    /** The reads of a run.  As long as the host has not failed, every successful one is answered
        from one fixed file. */
    method ServeReads(requests: seq<Request>) returns (replies: seq<Option<seq<bv8>>>)
      requires Valid() && !stale
      requires forall k :: 0 <= k < |requests| ==>
                 requests[k].size <= blockSize && BlockOf(requests[k].offset, blockSize) < NO_BLOCK - 1
      modifies this
      ensures Valid() && |replies| == |requests| && Grows(old(File()), File())
      ensures (forall k :: 0 <= k < |requests| ==> requests[k].first.status >= 0 && requests[k].second.status >= 0) ==>
                AllServed(File(), requests, replies)
    {
      hide BlockOf, Serves, Grows, Sizes, Hashed, Cached;
      replies := [];
      ghost var answered := forall k :: 0 <= k < |requests| ==>
        requests[k].first.status >= 0 && requests[k].second.status >= 0;
      GrowsSelf(File());
      ghost var n := blockSize;
      while |replies| < |requests|
        invariant Valid() && |replies| <= |requests| && Grows(old(File()), File())
        invariant answered ==> !stale && AllServed(File(), requests, replies)
      {
        ghost var file := File();
        var k := |replies|;
        var result, reply := HandleRead(requests[k]);
        if answered { StillServed(file, File(), requests, replies); }
        GrowsTransitive(old(File()), file, File());
        replies := replies + [if result == 0 then Some(reply) else None];
      }
    }

    lemma ValidSizes()
      requires Valid()
      ensures 4096 <= blockSize && |blockData| == blockSize == |extraBlock|
    {
    }
  }

  /** Where it goes wrong: two successful reads of one position, with a failed request between them,
      that give different bytes. */
  method StaleRead() returns (first: seq<bv8>, second: seq<bv8>)
    ensures |first| == |second| == 1 && first != second
  {
    hide At, BlockCount, BlockOf, InBlock, Live, Serves, Grows;
    TwoBlocks();
    var fd := new FuseData(8192, 4096, 0, false);
    var good, bad := Answer(0, (i: nat) => 1), Answer(-EIO, (i: nat) => 2);
    var result := fd.FetchBlock(0, good);
    assert fd.FetchSize(0) == fd.FetchSize(1) == 4096;
    result, first := fd.HandleRead(Request(0, 1, good, good));
    assert first == [1];
    result := fd.FetchBlock(1, bad);
    result, second := fd.HandleRead(Request(0, 1, good, good));
    assert second == [2];
  }

  lemma TwoBlocks()
    ensures BlockCount(8192, 4096) == 2 && BlockOf(0, 4096) == 0 && InBlock(0, 4096) == 0 && Mul32(0, 4096) == 0
            && Mul32(1, 4096) == 4096
  {
  }
}
