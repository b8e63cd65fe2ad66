/** Block maps: uncrypt records where the blocks of a file are and, for an encrypted file, writes the
    plain contents back over them; recovery later maps those blocks without the file system. */
module BlockMap {
  import opened Basics
  import opened RangeSets
  import opened Scatter

  const WINDOW_SIZE: nat := 5

  const FIBMAP_RETRY_LIMIT: nat := 3

  /** A file: its blocks (the last may be short), where they are, which of them FIBMAP answers 0 for
      when first asked, and what reading a block through the file system makes of the raw block. */
  datatype File = File(blocks: seq<seq<bv8>>, blksize: nat, fibmap: nat -> nat, delayed: nat -> bool,
                       view: (nat, seq<bv8>) -> seq<bv8>, encrypted: bool)

  /** The block map file, apart from its number formatting. */
  datatype Map = Map(size: nat, blksize: nat, rangeCount: nat, ranges: seq<Range>)

  class BlockDevice {
    var blocks: seq<seq<bv8>>
    /** An I/O call has failed, or FIBMAP has kept answering 0. */
    ghost var broken: bool

    constructor (blocks: seq<seq<bv8>>)
      ensures this.blocks == blocks && !broken
    {
      this.blocks := blocks;
      broken := false;
    }

    /** Whether an I/O call succeeds. */
    method Call() returns (ok: bool)
      modifies this`broken
      ensures broken == (old(broken) || !ok)
    {
      ok := *;
      broken := broken || !ok;
    }
  }

  function Flatten(bs: seq<seq<bv8>>): seq<bv8> {
    if bs == [] then [] else bs[0] + Flatten(bs[1..])
  }

  ghost predicate FileOk(f: File) {
    && f.blocks != [] && f.blksize > 0
    && (forall i :: 0 <= i < |f.blocks| - 1 ==> |f.blocks[i]| == f.blksize)
    && 0 < |f.blocks[|f.blocks| - 1]| <= f.blksize
  }

  function FileSize(f: File): nat
    requires f.blocks != []
  {
    (|f.blocks| - 1) * f.blksize + |f.blocks[|f.blocks| - 1]|
  }

  /** The raw block begins with the content of file block i. */
  ghost predicate Holds(f: File, i: nat, raw: seq<bv8>)
    requires i < |f.blocks|
  {
    |raw| == f.blksize && f.blocks[i] <= raw
  }

  /** The file is where FIBMAP says, each block in a place of its own. */
  ghost predicate Placed(f: File, dev: seq<seq<bv8>>) {
    && FileOk(f)
    && (forall i :: 0 <= i < |f.blocks| ==> 0 < f.fibmap(i) < |dev|)
    && (forall i, j :: 0 <= i < j < |f.blocks| ==> f.fibmap(i) != f.fibmap(j))
    && (forall i :: 0 <= i < |f.blocks| ==> Holds(f, i, f.view(i, dev[f.fibmap(i)])))
    && (!f.encrypted ==> forall i :: 0 <= i < |f.blocks| ==> f.view(i, dev[f.fibmap(i)]) == dev[f.fibmap(i)])
  }

  // ---------- ranges ----------

  /** The pairs of the flat list. */
  function Pairs(ranges: seq<int>): seq<Range> {
    if |ranges| < 2 || ranges[|ranges| - 2] < 0 || ranges[|ranges| - 1] < 0 then []
    else Pairs(ranges[..|ranges| - 2]) + [Range(ranges[|ranges| - 2], ranges[|ranges| - 1])]
  }

  ghost predicate FlatRanges(ranges: seq<int>) {
    |ranges| % 2 == 0 && (forall i :: 0 <= i < |ranges| ==> 0 <= ranges[i])
    && (forall i :: 0 <= i < |ranges| && i % 2 == 0 ==> ranges[i] < ranges[i + 1])
  }

  /** No range begins where the one before it ends. */
  ghost predicate NotJoinable(rs: seq<Range>) {
    forall i :: 0 <= i < |rs| - 1 ==> rs[i].second != rs[i + 1].first
  }

  lemma {:induction false} PairsCount(ranges: seq<int>)
    requires FlatRanges(ranges)
    ensures |Pairs(ranges)| == |ranges| / 2 && NonEmptyRanges(Pairs(ranges))
  {
    if ranges != [] {
      PairsCount(ranges[..|ranges| - 2]);
      assert ranges[|ranges| - 2] < ranges[|ranges| - 1];
    }
  }

  /** The list grows by the block, as a new range or at the end of the last one. */
  method AddBlockToRanges(ranges0: seq<int>, newBlock: nat) returns (ranges: seq<int>)
    requires FlatRanges(ranges0) && NotJoinable(Pairs(ranges0))
    ensures FlatRanges(ranges) && NotJoinable(Pairs(ranges)) && ranges != []
    ensures Expand(Pairs(ranges)) == Expand(Pairs(ranges0)) + [newBlock]
  {
    hide FlatRanges, NotJoinable, Pairs, Expand;
    ranges := ranges0;
    var n := |ranges|;
    if n > 0 && newBlock == ranges[n - 1] {
      ranges := ranges[n - 1 := ranges[n - 1] + 1];
      GrowLast(ranges0);
    } else {
      ranges := ranges + [newBlock];
      ranges := ranges + [newBlock + 1];
      NewRange(ranges0, newBlock);
      assert ranges == ranges0 + [newBlock, newBlock + 1];
    }
  }

  lemma GrowLast(ranges: seq<int>)
    requires FlatRanges(ranges) && NotJoinable(Pairs(ranges)) && ranges != []
    ensures var n := |ranges|; var grown := ranges[n - 1 := ranges[n - 1] + 1];
            FlatRanges(grown) && NotJoinable(Pairs(grown))
            && Expand(Pairs(grown)) == Expand(Pairs(ranges)) + [ranges[n - 1]]
  {
    hide Expand;
    var n := |ranges|;
    var grown := ranges[n - 1 := ranges[n - 1] + 1];
    var front, r, s := Pairs(ranges[..n - 2]), Range(ranges[n - 2], ranges[n - 1]),
      Range(ranges[n - 2], ranges[n - 1] + 1);
    assert ranges[n - 2] < ranges[n - 1];
    assert grown[..n - 2] == ranges[..n - 2];
    assert Pairs(ranges) == front + [r] && Pairs(grown) == front + [s];
    ExpandSnoc(front, r);
    ExpandSnoc(front, s);
    assert Interval(s) == Interval(r) + [ranges[n - 1]];
    assert Expand(front) + (Interval(r) + [ranges[n - 1]]) == Expand(front) + Interval(r) + [ranges[n - 1]];
    forall i | 0 <= i < |Pairs(grown)| - 1 ensures Pairs(grown)[i].second != Pairs(grown)[i + 1].first {
      assert Pairs(ranges)[i].second != Pairs(ranges)[i + 1].first;
    }
  }

  lemma NewRange(ranges: seq<int>, b: nat)
    requires FlatRanges(ranges) && NotJoinable(Pairs(ranges)) && (ranges != [] ==> b != ranges[|ranges| - 1])
    ensures var more := ranges + [b, b + 1];
            FlatRanges(more) && NotJoinable(Pairs(more)) && Expand(Pairs(more)) == Expand(Pairs(ranges)) + [b]
  {
    hide Expand;
    var more := ranges + [b, b + 1];
    assert more[..|more| - 2] == ranges;
    assert Pairs(more) == Pairs(ranges) + [Range(b, b + 1)];
    ExpandSnoc(Pairs(ranges), Range(b, b + 1));
    assert Interval(Range(b, b + 1)) == [b];
    PairsCount(ranges);
    if ranges != [] { assert Pairs(ranges)[|Pairs(ranges)| - 1].second == ranges[|ranges| - 1]; }
  }

  // ---------- where a block is written ----------

  /** The block that is used for file block i.  After an answer of 0 the retry asks with that 0 as the
      block number, and so gets the place of the first block. */
  function Found(f: File, i: nat): nat {
    if f.delayed(i) then f.fibmap(0) else f.fibmap(i)
  }

  /** FIBMAP finds every block after the first at once. */
  ghost predicate Prompt(f: File) {
    forall i :: 0 < i < |f.blocks| ==> !f.delayed(i)
  }

  function FoundBlocks(f: File, n: nat): seq<nat> {
    seq(n, i requires 0 <= i => Found(f, i))
  }

  function Place(f: File, i: nat): nat {
    f.fibmap(i)
  }

  function FileBlocks(f: File, n: nat): seq<nat> {
    seq(n, i requires 0 <= i => Place(f, i))
  }

  /** The map is that of the file exactly when FIBMAP was prompt. */
  lemma FoundIsFile(f: File, dev: seq<seq<bv8>>)
    requires Placed(f, dev)
    ensures FoundBlocks(f, |f.blocks|) == FileBlocks(f, |f.blocks|) <==> Prompt(f)
  {
    var n := |f.blocks|;
    if FoundBlocks(f, n) == FileBlocks(f, n) {
      forall i | 0 < i < n ensures !f.delayed(i) {
        assert FoundBlocks(f, n)[i] == FileBlocks(f, n)[i];
        assert f.fibmap(0) != f.fibmap(i);
      }
    }
  }

  method RetryFibmap(f: File, device: BlockDevice, block0: nat) returns (ok: bool, block: nat)
    requires block0 == 0
    modifies device`broken
    ensures device.broken == (old(device.broken) || !ok)
    ensures ok ==> block == f.fibmap(0)
  {
    block := block0;
    var i := 0;
    while i < FIBMAP_RETRY_LIMIT
      invariant block == 0 && device.broken == old(device.broken)
    {
      ok := device.Call();
      if !ok { return; }
      var zero: bool := *;
      // The number asked for is the one in `block`.
      block := if zero then 0 else f.fibmap(block);
      if block != 0 { return true, block; }
      i := i + 1;
    }
    device.broken := true;
    return false, block;
  }

  /** FIBMAP for a block, with its retries. */
  method FindBlock(f: File, device: BlockDevice, headBlock: nat) returns (ok: bool, block: nat)
    requires 0 < f.fibmap(headBlock)
    modifies device`broken
    ensures device.broken == (old(device.broken) || !ok)
    ensures ok ==> block == Found(f, headBlock)
  {
    ok := device.Call();
    if !ok { return false, 0; }
    block := if f.delayed(headBlock) then 0 else f.fibmap(headBlock);
    if block == 0 { ok, block := RetryFibmap(f, device, block); }
  }

  // ---------- the window ----------

  function Slot(head: nat, k: nat): nat {
    (head + k) % WINDOW_SIZE
  }

  /** The window holds file blocks headBlock up to `read`, in order from `head`. */
  ghost predicate Window(f: File, buffers: seq<seq<bv8>>, head: nat, tail: nat, headBlock: nat, read: nat) {
    && head < WINDOW_SIZE && tail < WINDOW_SIZE && headBlock <= read <= |f.blocks| && read - headBlock < WINDOW_SIZE
    && tail == Slot(head, read - headBlock)
    && (f.encrypted ==>
          && |buffers| == WINDOW_SIZE && (forall i :: 0 <= i < WINDOW_SIZE ==> |buffers[i]| == f.blksize)
          && forall k :: 0 <= k < read - headBlock ==> Holds(f, headBlock + k, buffers[Slot(head, k)]))
  }

  lemma WindowHead(f: File, buffers: seq<seq<bv8>>, head: nat, tail: nat, headBlock: nat, read: nat)
    requires Window(f, buffers, head, tail, headBlock, read)
    ensures (tail + 1) % WINDOW_SIZE == head <==> read - headBlock == WINDOW_SIZE - 1
    ensures head == tail <==> read == headBlock
    ensures f.encrypted && headBlock < read ==> Holds(f, headBlock, buffers[head])
  {
    if headBlock < read { assert Slot(head, 0) == head; }
  }

  lemma WindowWritten(f: File, buffers: seq<seq<bv8>>, head: nat, tail: nat, headBlock: nat, read: nat)
    requires Window(f, buffers, head, tail, headBlock, read) && headBlock < read
    ensures Window(f, buffers, (head + 1) % WINDOW_SIZE, tail, headBlock + 1, read)
  {
    var head' := (head + 1) % WINDOW_SIZE;
    forall k: nat ensures Slot(head', k) == Slot(head, k + 1) {
    }
    if f.encrypted {
      forall k | 0 <= k < read - (headBlock + 1) ensures Holds(f, headBlock + 1 + k, buffers[Slot(head', k)]) {
        assert Holds(f, headBlock + (k + 1), buffers[Slot(head, k + 1)]);
      }
    }
  }

  lemma WindowRead(f: File, buffers: seq<seq<bv8>>, head: nat, tail: nat, headBlock: nat, read: nat, buffer: seq<bv8>)
    requires Window(f, buffers, head, tail, headBlock, read) && read < |f.blocks| && read - headBlock < WINDOW_SIZE - 1
    requires f.encrypted ==> Holds(f, read, buffer)
    ensures Window(f, if f.encrypted then buffers[tail := buffer] else buffers, head, (tail + 1) % WINDOW_SIZE,
            headBlock, read + 1)
  {
    var m := read - headBlock;
    assert (Slot(head, m) + 1) % WINDOW_SIZE == Slot(head, m + 1);
    if f.encrypted {
      forall k | 0 <= k < m ensures Slot(head, k) != tail {
        SlotsDiffer(head, k, m);
      }
    }
  }

  lemma SlotsDiffer(head: nat, k: nat, m: nat)
    requires k < m < WINDOW_SIZE
    ensures Slot(head, k) != Slot(head, m)
  {
  }

  // ---------- the device ----------

  /** Only places of the first m blocks have been written; if FIBMAP was prompt each holds its block. */
  ghost predicate WrittenOut(f: File, dev0: seq<seq<bv8>>, dev: seq<seq<bv8>>, m: nat) {
    && |dev| == |dev0| && m <= |f.blocks|
    && (forall j :: 0 <= j < m ==> f.fibmap(j) < |dev|)
    && (forall p :: 0 <= p < |dev| && (forall j :: 0 <= j < m ==> f.fibmap(j) != p) ==> dev[p] == dev0[p])
    && (!f.encrypted ==> dev == dev0)
    && (f.encrypted && Prompt(f) ==> forall j :: 0 <= j < m ==> Holds(f, j, dev[f.fibmap(j)]))
  }

  lemma WriteOutStep(f: File, dev0: seq<seq<bv8>>, dev: seq<seq<bv8>>, m: nat, buffer: seq<bv8>)
    requires Placed(f, dev0) && WrittenOut(f, dev0, dev, m) && m < |f.blocks| && (f.encrypted ==> Holds(f, m, buffer))
    ensures Found(f, m) < |dev|
    ensures WrittenOut(f, dev0, if f.encrypted then dev[Found(f, m) := buffer] else dev, m + 1)
  {
  }

  /** A block that has not been written out reads as the file. */
  lemma ReadsFile(f: File, dev0: seq<seq<bv8>>, dev: seq<seq<bv8>>, m: nat, i: nat)
    requires Placed(f, dev0) && WrittenOut(f, dev0, dev, m) && m <= i < |f.blocks|
    ensures f.fibmap(i) < |dev| && Holds(f, i, f.view(i, dev[f.fibmap(i)]))
  {
    assert forall j :: 0 <= j < m ==> f.fibmap(j) != f.fibmap(i);
  }

  // ---------- producing the map ----------

  ghost predicate Ranged(f: File, ranges: seq<int>, m: nat) {
    FlatRanges(ranges) && NotJoinable(Pairs(ranges)) && Expand(Pairs(ranges)) == FoundBlocks(f, m)
    && (m > 0 ==> ranges != [])
  }

  /** Write out the buffer at the head of the window. */
  method WriteOutHead(f: File, device: BlockDevice, headBlock: nat, buffer: seq<bv8>, ranges0: seq<int>,
                      ghost dev0: seq<seq<bv8>>)
    returns (ok: bool, ranges: seq<int>)
    requires Placed(f, dev0) && WrittenOut(f, dev0, device.blocks, headBlock) && headBlock < |f.blocks|
    requires f.encrypted ==> Holds(f, headBlock, buffer)
    requires Ranged(f, ranges0, headBlock)
    modifies device
    ensures |device.blocks| == |old(device.blocks)| && device.broken == (old(device.broken) || !ok)
    ensures ok ==> WrittenOut(f, dev0, device.blocks, headBlock + 1) && Ranged(f, ranges, headBlock + 1)
  {
    hide FlatRanges, NotJoinable, Pairs, Expand, WrittenOut;
    ranges := ranges0;
    var block;
    ok, block := FindBlock(f, device, headBlock);
    if !ok { return; }
    WriteOutStep(f, dev0, device.blocks, headBlock, buffer);
    ranges := AddBlockToRanges(ranges, block);
    assert FoundBlocks(f, headBlock + 1) == FoundBlocks(f, headBlock) + [block];
    if f.encrypted {
      ok := device.Call();
      if !ok {
        var torn: seq<bv8> := *;
        device.blocks := device.blocks[block := torn];
        return;
      }
      device.blocks := device.blocks[block := buffer];
    }
  }

  /** A block of the file read into a reused buffer: what follows a short block is left from before. */
  method ReadBlock(f: File, device: BlockDevice, read: nat, buffer0: seq<bv8>, ghost dev0: seq<seq<bv8>>, ghost m: nat)
    returns (ok: bool, buffer: seq<bv8>)
    requires Placed(f, dev0) && WrittenOut(f, dev0, device.blocks, m) && m <= read < |f.blocks|
             && |buffer0| == f.blksize
    modifies device`broken
    ensures device.broken == (old(device.broken) || !ok)
    ensures ok ==> Holds(f, read, buffer)
  {
    ReadsFile(f, dev0, device.blocks, m, read);
    ok := device.Call();
    var n := |f.blocks[read]|;
    var raw := f.view(read, device.blocks[f.fibmap(read)]);
    buffer := raw[..n] + buffer0[n..];
    assert raw[..n] == f.blocks[read];
  }

  method ReusedBuffers(blksize: nat) returns (buffers: seq<seq<bv8>>)
    ensures |buffers| == WINDOW_SIZE && forall i :: 0 <= i < WINDOW_SIZE ==> |buffers[i]| == blksize
  {
    buffers := seq(WINDOW_SIZE, _ => seq(blksize, _ => 0));
  }

  /** Bytes in `n` full blocks. */
  function Bytes(n: nat, blksize: nat): nat {
    n * blksize
  }

  lemma BytesGrow(m: nat, n: nat, blksize: nat)
    requires m <= n
    ensures Bytes(m, blksize) <= Bytes(n, blksize) && Bytes(m + 1, blksize) == Bytes(m, blksize) + blksize
  {
  }

  /** The position after `read` blocks, and what it says about the end of the file. */
  lemma Position(f: File, read: nat, pos: nat)
    requires FileOk(f) && read <= |f.blocks|
    requires pos == if f.encrypted && read == |f.blocks| then FileSize(f) else Bytes(read, f.blksize)
    ensures pos < FileSize(f) <==> read < |f.blocks|
    ensures read < |f.blocks| ==>
              |f.blocks[read]| == if f.blksize < FileSize(f) - pos then f.blksize else FileSize(f) - pos
    ensures read < |f.blocks| ==> pos + f.blksize == Bytes(read + 1, f.blksize)
    ensures read < |f.blocks| - 1 ==> |f.blocks[read]| == f.blksize
    ensures read == |f.blocks| - 1 ==> pos + |f.blocks[read]| == FileSize(f)
  {
    var n, size := |f.blocks| - 1, FileSize(f);
    assert size == Bytes(n, f.blksize) + |f.blocks[n]|;
    hide Bytes, FileSize;
    BytesGrow(read, if read <= n then n else read, f.blksize);
    if read < n { BytesGrow(read + 1, n, f.blksize); }
    if read == n + 1 { BytesGrow(n, n, f.blksize); }
  }

  /** produce_block_map: a map comes out unless an I/O call fails. */
  method ProduceBlockMap(f: File, device: BlockDevice) returns (blockMap: Option<Map>)
    requires Placed(f, device.blocks) && !device.broken
    modifies device
    ensures |device.blocks| == |old(device.blocks)|
    ensures blockMap.None? <==> device.broken
    ensures blockMap.Some? ==> WrittenOut(f, old(device.blocks), device.blocks, |f.blocks|) && MapOf(f, blockMap.value)
  {
    hide Window, WrittenOut, Ranged, Placed, FileOk, FileSize, Bytes, Slot, Holds;
    ghost var dev0, n := device.blocks, |f.blocks|;
    PlacedParts(f, dev0);
    var size := FileSize(f);
    var ranges: seq<int>, buffers: seq<seq<bv8>> := [], [];
    if f.encrypted { buffers := ReusedBuffers(f.blksize); }
    var headBlock: nat, head: nat, tail: nat := 0, 0, 0;
    var pos := 0;
    // The position of the open file, in blocks.
    var read := 0;
    Starts(f, dev0, buffers);
    Position(f, 0, 0);
    var ok;
    while pos < size
      invariant 0 <= read <= n && pos == (if f.encrypted && read == n then size else Bytes(read, f.blksize))
      invariant 0 <= headBlock && Window(f, buffers, head, tail, headBlock, read)
      invariant !device.broken && |device.blocks| == |dev0| && WrittenOut(f, dev0, device.blocks, headBlock)
                && Ranged(f, ranges, headBlock)
      decreases n - read
    {
      Position(f, read, pos);
      WindowHead(f, buffers, head, tail, headBlock, read);
      WindowBounds(f, buffers, head, tail, headBlock, read);
      if (tail + 1) % WINDOW_SIZE == head {
        ok, ranges := WriteOutHead(f, device, headBlock, if f.encrypted then buffers[head] else [], ranges, dev0);
        if !ok { return None; }
        WindowWritten(f, buffers, head, tail, headBlock, read);
        head := (head + 1) % WINDOW_SIZE;
        headBlock := headBlock + 1;
        WindowBounds(f, buffers, head, tail, headBlock, read);
      }
      ghost var buffers0 := buffers;
      if f.encrypted {
        var buffer;
        ok, buffer := ReadBlock(f, device, read, buffers[tail], dev0, headBlock);
        if !ok { return None; }
        WindowRead(f, buffers, head, tail, headBlock, read, buffer);
        buffers := buffers[tail := buffer];
        pos := pos + if f.blksize < size - pos then f.blksize else size - pos;
      } else {
        WindowRead(f, buffers, head, tail, headBlock, read, []);
        pos := pos + f.blksize;
      }
      tail := (tail + 1) % WINDOW_SIZE;
      read := read + 1;
    }
    Position(f, read, pos);
    WindowBounds(f, buffers, head, tail, headBlock, read);
    while head != tail
      invariant 0 <= headBlock <= n && Window(f, buffers, head, tail, headBlock, n)
      invariant !device.broken && |device.blocks| == |dev0| && WrittenOut(f, dev0, device.blocks, headBlock)
                && Ranged(f, ranges, headBlock)
      decreases n - headBlock
    {
      WindowHead(f, buffers, head, tail, headBlock, n);
      WindowBounds(f, buffers, head, tail, headBlock, n);
      ok, ranges := WriteOutHead(f, device, headBlock, if f.encrypted then buffers[head] else [], ranges, dev0);
      if !ok { return None; }
      WindowWritten(f, buffers, head, tail, headBlock, n);
      head := (head + 1) % WINDOW_SIZE;
      headBlock := headBlock + 1;
    }
    WindowHead(f, buffers, head, tail, headBlock, n);
    blockMap := Some(Map(size, f.blksize, |ranges| / 2, Pairs(ranges)));
    MapMade(f, ranges);
  }

  /** The map of a file. */
  ghost predicate MapOf(f: File, m: Map)
    requires f.blocks != []
  {
    && m.size == FileSize(f) && m.blksize == f.blksize && m.rangeCount == |m.ranges| && m.ranges != []
    && NonEmptyRanges(m.ranges) && NotJoinable(m.ranges) && Expand(m.ranges) == FoundBlocks(f, |f.blocks|)
  }

  lemma MapMade(f: File, ranges: seq<int>)
    requires FileOk(f) && Ranged(f, ranges, |f.blocks|)
    ensures MapOf(f, Map(FileSize(f), f.blksize, |ranges| / 2, Pairs(ranges)))
  {
    PairsCount(ranges);
  }

  lemma PlacedParts(f: File, dev: seq<seq<bv8>>)
    requires Placed(f, dev)
    ensures FileOk(f) && f.blocks != []
  {
  }

  lemma Starts(f: File, dev: seq<seq<bv8>>, buffers: seq<seq<bv8>>)
    requires f.encrypted ==> |buffers| == WINDOW_SIZE && forall i :: 0 <= i < WINDOW_SIZE ==> |buffers[i]| == f.blksize
    ensures Window(f, buffers, 0, 0, 0, 0) && WrittenOut(f, dev, dev, 0) && Ranged(f, [], 0)
    ensures Bytes(0, f.blksize) == 0
  {
  }

  lemma WindowBounds(f: File, buffers: seq<seq<bv8>>, head: nat, tail: nat, headBlock: nat, read: nat)
    requires Window(f, buffers, head, tail, headBlock, read)
    ensures head < WINDOW_SIZE && tail < WINDOW_SIZE && headBlock <= read <= |f.blocks|
            && read - headBlock < WINDOW_SIZE
    ensures f.encrypted ==> |buffers| == WINDOW_SIZE && |buffers[tail]| == f.blksize
  {
  }

  // ---------- mapping ----------

  /** The mapped memory: its length as reported, and the blocks behind it. */
  datatype Mapping = Mapping(length: nat, memory: seq<seq<bv8>>)

  function MapBlocks(m: Map): nat
    requires m.blksize > 0 && m.size > 0
  {
    (m.size - 1) / m.blksize + 1
  }

  /** What the reader demands of a block map. */
  ghost predicate Mappable(m: Map, dev: seq<seq<bv8>>) {
    && m.size > 0 && m.blksize > 0 && MapBlocks(m) <= SIZE_MAX / m.blksize
    && m.rangeCount == |m.ranges| > 0 && Within(m.ranges, |dev|) && Total(m.ranges) == MapBlocks(m)
  }

  lemma BytesOrder(a: nat, b: nat, c: nat)
    requires c > 0
    ensures Bytes(a, c) <= Bytes(b, c) <==> a <= b
    ensures Bytes(a, c) == Bytes(b, c) <==> a == b
    ensures a >= b ==> Bytes(a, c) - Bytes(b, c) == Bytes(a - b, c)
  {
    if a < b { BytesGrow(a + 1, b, c); BytesGrow(a, b, c); }
    if b < a { BytesGrow(b + 1, a, c); BytesGrow(b, a, c); }
  }

  /** MapBlockFile: succeeds exactly for such a map, and then the memory is the listed blocks in order. */
  method MapBlockFile(m: Map, device: BlockDevice) returns (r: Option<Mapping>)
    ensures r.Some? <==> Mappable(m, device.blocks)
    ensures r.Some? ==> |Expand(m.ranges)| == Total(m.ranges) && InBounds(Expand(m.ranges), |device.blocks|)
                        && r.value == Mapping(m.size, Gather(device.blocks, Expand(m.ranges)))
  {
    hide Bytes, Total, Expand, MapBlocks, Before, Head, Interval;
    var size, blksize := m.size, m.blksize;
    var blocks := if blksize != 0 && size != 0 then MapBlocks(m) else 0;
    if size == 0 || blksize == 0 || blocks > SIZE_MAX / blksize || m.rangeCount == 0 || |m.ranges| != m.rangeCount {
      return None;
    }
    var memory: seq<seq<bv8>> := [];
    var remainingSize := Bytes(blocks, blksize);
    var i := 0;
    MapStarts(m.ranges, device.blocks);
    while i < m.rangeCount
      invariant 0 <= i <= m.rangeCount && Within(m.ranges[..i], |device.blocks|)
      invariant Before(m.ranges, i) <= blocks && remainingSize == Bytes(blocks - Before(m.ranges, i), blksize)
      invariant MappedSoFar(m.ranges, device.blocks, i, memory)
    {
      var start, end := m.ranges[i].first, m.ranges[i].second;
      MapRange(m.ranges, device.blocks, i, blocks, blksize);
      if end <= start || end - start > SIZE_MAX / blksize { return None; }
      var rangeSize := Bytes(end - start, blksize);
      if rangeSize > remainingSize { return None; }
      // Blocks past the end of the device cannot be mapped.
      if end > |device.blocks| { return None; }
      MappedStep(m.ranges, device.blocks, i, memory);
      BytesOrder(blocks - Before(m.ranges, i), end - start, blksize);
      memory := memory + device.blocks[start..end];
      remainingSize := remainingSize - rangeSize;
      i := i + 1;
    }
    assert m.ranges[..i] == m.ranges;
    BeforeAll(m.ranges);
    BytesOrder(blocks - Before(m.ranges, i), 0, blksize);
    NoBytes(blksize);
    if remainingSize != 0 { return None; }
    MappedAll(m.ranges, device.blocks, memory);
    return Some(Mapping(size, memory));
  }

  lemma NoBytes(blksize: nat)
    ensures Bytes(0, blksize) == 0
  {
  }

  ghost predicate MappedSoFar(rs: seq<Range>, dev: seq<seq<bv8>>, i: nat, memory: seq<seq<bv8>>)
    requires i <= |rs|
  {
    InBounds(Head(rs, i), |dev|) && memory == Gather(dev, Head(rs, i))
  }

  lemma MapStarts(rs: seq<Range>, dev: seq<seq<bv8>>)
    ensures MappedSoFar(rs, dev, 0, []) && Before(rs, 0) == 0
  {
  }

  /** When range i cannot be mapped, or is more than what remains, the map is not mappable. */
  lemma MapRange(rs: seq<Range>, dev: seq<seq<bv8>>, i: nat, blocks: nat, blksize: nat)
    requires i < |rs| && blksize > 0 && Before(rs, i) <= blocks <= SIZE_MAX / blksize
    ensures Before(rs, i + 1) == Before(rs, i) + Length(rs[i])
    ensures NonEmptyRanges(rs) ==> Before(rs, i + 1) <= Total(rs)
    ensures rs[i].first < rs[i].second ==>
              (Bytes(rs[i].second - rs[i].first, blksize) > Bytes(blocks - Before(rs, i), blksize) <==>
                Before(rs, i + 1) > blocks)
    ensures rs[..i + 1] == rs[..i] + [rs[i]]
  {
    BeforeAll(rs);
    AtMost(rs, i + 1, |rs|);
    if rs[i].first < rs[i].second {
      BytesOrder(rs[i].second - rs[i].first, blocks - Before(rs, i), blksize);
    }
  }

  lemma {:induction false} AtMost(rs: seq<Range>, k: nat, n: nat)
    requires k <= n <= |rs|
    ensures Before(rs, k) <= Before(rs, n)
  {
    if k < n { AtMost(rs, k, n - 1); }
  }

  lemma MappedStep(rs: seq<Range>, dev: seq<seq<bv8>>, i: nat, memory: seq<seq<bv8>>)
    requires i < |rs| && MappedSoFar(rs, dev, i, memory) && rs[i].first < rs[i].second <= |dev|
    ensures MappedSoFar(rs, dev, i + 1, memory + dev[rs[i].first..rs[i].second])
  {
    var r, head := rs[i], Head(rs, i);
    assert Head(rs, i + 1) == head + Interval(r);
    assert Gather(dev, Interval(r)) == dev[r.first..r.second];
    assert Gather(dev, head + Interval(r)) == Gather(dev, head) + Gather(dev, Interval(r));
  }

  lemma MappedAll(rs: seq<Range>, dev: seq<seq<bv8>>, memory: seq<seq<bv8>>)
    requires MappedSoFar(rs, dev, |rs|, memory)
    ensures |Expand(rs)| == Total(rs) && InBounds(Expand(rs), |dev|) && memory == Gather(dev, Expand(rs))
  {
    HeadAll(rs);
    ExpandLength(rs);
  }

  // ---------- the round trip ----------

  /** The bytes of the file. */
  function Contents(f: File): seq<bv8> {
    Flatten(f.blocks)
  }

  lemma {:induction false} FlattenHolds(blocks: seq<seq<bv8>>, memory: seq<seq<bv8>>, blksize: nat)
    requires blocks != [] && |memory| == |blocks| && 0 < |blocks[|blocks| - 1]|
    requires forall i :: 0 <= i < |blocks| ==> |memory[i]| == blksize && blocks[i] <= memory[i]
    requires forall i :: 0 <= i < |blocks| - 1 ==> |blocks[i]| == blksize
    ensures |Flatten(blocks)| == Bytes(|blocks| - 1, blksize) + |blocks[|blocks| - 1]|
    ensures |Flatten(blocks)| <= |Flatten(memory)| && Flatten(memory)[..|Flatten(blocks)|] == Flatten(blocks)
    decreases |blocks|
  {
    hide Bytes;
    NoBytes(blksize);
    var n := |blocks| - 1;
    if n == 0 {
      assert memory == [memory[0]] && blocks == [blocks[0]];
      FlattenOne(memory[0]);
      FlattenOne(blocks[0]);
    } else {
      var bs, ms := blocks[1..], memory[1..];
      assert bs[|bs| - 1] == blocks[n];
      forall i | 0 <= i < |bs| ensures |ms[i]| == blksize && bs[i] <= ms[i] {
        assert ms[i] == memory[i + 1] && bs[i] == blocks[i + 1];
      }
      FlattenHolds(bs, ms, blksize);
      BytesGrow(n - 1, n - 1, blksize);
      assert blocks[0] == memory[0];
      PrefixAfter(blocks[0], Flatten(ms), |Flatten(bs)|);
    }
  }

  lemma FlattenOne(b: seq<bv8>)
    ensures Flatten([b]) == b
  {
    assert [b][1..] == [];
    assert b + [] == b;
  }

  lemma PrefixAfter(a: seq<bv8>, b: seq<bv8>, n: nat)
    requires n <= |b|
    ensures (a + b)[..|a| + n] == a + b[..n]
  {
  }

  /** The device after uncrypt holds the file where the map says, if FIBMAP was prompt. */
  lemma DeviceHoldsFile(f: File, dev0: seq<seq<bv8>>, dev: seq<seq<bv8>>, i: nat)
    requires Placed(f, dev0) && WrittenOut(f, dev0, dev, |f.blocks|) && Prompt(f) && i < |f.blocks|
    ensures f.fibmap(i) < |dev| && Holds(f, i, dev[f.fibmap(i)])
  {
    if !f.encrypted {
      assert Holds(f, i, f.view(i, dev0[f.fibmap(i)]));
    }
  }

  /** Mapping the map of a file succeeds and gives the bytes of the file, if FIBMAP was prompt. */
  lemma RoundTrip(f: File, dev0: seq<seq<bv8>>, dev: seq<seq<bv8>>, m: Map)
    requires Placed(f, dev0) && WrittenOut(f, dev0, dev, |f.blocks|) && MapOf(f, m) && Prompt(f)
    requires |f.blocks| <= SIZE_MAX / f.blksize
    ensures Mappable(m, dev) && InBounds(Expand(m.ranges), |dev|) && m.size == |Contents(f)|
    ensures var memory := Flatten(Gather(dev, Expand(m.ranges)));
            m.size <= |memory| && memory[..m.size] == Contents(f)
  {
    hide WrittenOut, Placed, Flatten, Prompt, Expand;
    var n := |f.blocks|;
    PlacedParts(f, dev0);
    forall i | 0 <= i < n ensures Found(f, i) == f.fibmap(i) < |dev| && Holds(f, i, dev[f.fibmap(i)]) {
      DeviceHoldsFile(f, dev0, dev, i);
      PromptFound(f, i);
    }
    RangesWithin(m.ranges, |dev|);
    SizeBlocks(n, f.blksize, |f.blocks[n - 1]|);
    var memory := Gather(dev, Expand(m.ranges));
    forall i | 0 <= i < n ensures |memory[i]| == f.blksize && f.blocks[i] <= memory[i] {
      assert Holds(f, i, dev[f.fibmap(i)]);
    }
    FlattenHolds(f.blocks, memory, f.blksize);
  }

  /** A file of two blocks of a byte each, in places 1 and 2; FIBMAP first answers 0 for the second. */
  function SlowFile(): File {
    File([[1], [2]], 1, i => i + 1, i => i == 1, (i, raw) => raw, false)
  }

  /** Without a prompt FIBMAP the map can be of something else: here the second block is taken to be
      where the first one is. */
  lemma WrongMap(dev: seq<seq<bv8>>, m: Map)
    requires dev == [[0], [1], [2]] && m == Map(2, 1, 2, [Range(1, 2), Range(1, 2)])
    ensures Placed(SlowFile(), dev) && !Prompt(SlowFile()) && WrittenOut(SlowFile(), dev, dev, 2)
            && MapOf(SlowFile(), m)
    ensures Mappable(m, dev) && InBounds(Expand(m.ranges), |dev|)
    ensures Flatten(Gather(dev, Expand(m.ranges))) == [1, 1] && Contents(SlowFile()) == [1, 2]
  {
    hide Flatten, Expand, Total, Placed, WrittenOut, MapOf, Mappable;
    SlowPlaced(dev);
    SlowMap(dev, m);
    TwiceTheSame(m.ranges);
    assert SlowFile().delayed(1);
    assert Gather(dev, [1, 1]) == [[1], [1]];
    FlattenTwo([1], [1]);
    FlattenTwo([1], [2]);
  }

  lemma SlowPlaced(dev: seq<seq<bv8>>)
    requires dev == [[0], [1], [2]]
    ensures Placed(SlowFile(), dev) && WrittenOut(SlowFile(), dev, dev, 2)
  {
    var f := SlowFile();
    forall i | 0 <= i < 2 ensures Holds(f, i, f.view(i, dev[f.fibmap(i)])) {
      assert f.view(i, dev[f.fibmap(i)]) == dev[i + 1] == f.blocks[i];
    }
  }

  lemma SlowMap(dev: seq<seq<bv8>>, m: Map)
    requires |dev| == 3 && m == Map(2, 1, 2, [Range(1, 2), Range(1, 2)])
    ensures MapOf(SlowFile(), m) && Mappable(m, dev)
  {
    hide Expand, Total;
    TwiceTheSame(m.ranges);
    assert FoundBlocks(SlowFile(), 2) == [1, 1];
  }

  lemma TwiceTheSame(rs: seq<Range>)
    requires rs == [Range(1, 2), Range(1, 2)]
    ensures Expand(rs) == [1, 1] && Total(rs) == 2
  {
    var r := Range(1, 2);
    assert Interval(r) == [1];
    ExpandSnoc([], r);
    assert [] + [r] == [r] && Expand([]) == [] && [] + [1] == [1];
    ExpandSnoc([r], r);
    ExpandLength(rs);
  }

  lemma FlattenTwo(a: seq<bv8>, b: seq<bv8>)
    ensures Flatten([a, b]) == a + b
  {
    assert [a, b][1..] == [b];
    FlattenOne(b);
  }

  lemma PromptFound(f: File, i: nat)
    requires Prompt(f) && i < |f.blocks|
    ensures Found(f, i) == f.fibmap(i)
  {
  }

  lemma RangesWithin(rs: seq<Range>, n: nat)
    requires NonEmptyRanges(rs) && forall q :: 0 <= q < |Expand(rs)| ==> Expand(rs)[q] < n
    ensures Within(rs, n) && |Expand(rs)| == Total(rs)
  {
    ExpandLength(rs);
    forall i | 0 <= i < |rs| ensures rs[i].second <= n {
      ExpandCovers(rs, rs[i].second - 1);
      assert Covers(rs, rs[i].second - 1);
    }
  }

  lemma SizeBlocks(n: nat, blksize: nat, last: nat)
    requires 0 < n && 0 < last <= blksize
    ensures (n - 1) * blksize + last > 0 && ((n - 1) * blksize + last - 1) / blksize + 1 == n
  {
    var q := (n - 1) * blksize + last - 1;
    assert q == (n - 1) * blksize + (last - 1);
    QuotientIs(q, n - 1, last - 1, blksize);
  }
}
