/** Streaming bytes into the target ranges of a `new` command, and the batch writer the other
    commands use.  Both are measured against one function: `Put` at the byte addresses of the
    ranges. */
module RangeSink {
  import opened Basics
  import opened RangeSets
  import opened Scatter

  /** The byte ranges of block ranges. */
  function InBytes(tgt: seq<Range>): (bs: seq<Range>)
    ensures |bs| == |tgt|
  {
    seq(|tgt|, i requires 0 <= i < |tgt| => Range(tgt[i].first * BLOCK_SIZE, tgt[i].second * BLOCK_SIZE))
  }

  lemma {:induction false} InBytesBefore(tgt: seq<Range>, k: nat)
    requires k <= |tgt|
    ensures Before(InBytes(tgt), k) == Before(tgt, k) * BLOCK_SIZE
  {
    if k > 0 { InBytesBefore(tgt, k - 1); }
  }

  /** Byte q of the data goes to byte q % 4096 of the block that is number q / 4096 in the ranges. */
  lemma {:induction false} ByteAddress(tgt: seq<Range>, q: nat)
    requires q < Total(tgt) * BLOCK_SIZE
    ensures |Expand(tgt)| == Total(tgt) && |Expand(InBytes(tgt))| == Total(tgt) * BLOCK_SIZE
    ensures Expand(InBytes(tgt))[q] == Expand(tgt)[q / BLOCK_SIZE] * BLOCK_SIZE + q % BLOCK_SIZE
    decreases |tgt|
  {
    ExpandLength(tgt);
    ExpandLength(InBytes(tgt));
    InBytesTotal(tgt);
    var r, rest := tgt[0], tgt[1..];
    assert InBytes(tgt)[1..] == InBytes(rest);
    var n := Length(r) * BLOCK_SIZE;
    if q < n {
      assert q / BLOCK_SIZE < Length(r);
    } else {
      assert q / BLOCK_SIZE == (q - n) / BLOCK_SIZE + Length(r) && q % BLOCK_SIZE == (q - n) % BLOCK_SIZE;
      ByteAddress(rest, q - n);
    }
  }

  lemma InBytesTotal(tgt: seq<Range>)
    ensures Total(InBytes(tgt)) == Total(tgt) * BLOCK_SIZE
  {
    InBytesBefore(tgt, |tgt|);
    BeforeAll(tgt);
    BeforeAll(InBytes(tgt));
  }

  lemma {:induction false} BeforeGrows(bs: seq<Range>, k: nat, n: nat)
    requires k <= n <= |bs|
    ensures Before(bs, k) <= Before(bs, n)
    ensures k < n && NonEmptyRanges(bs) ==> Before(bs, k) < Before(bs, n)
  {
    if k < n { BeforeGrows(bs, k, n - 1); }
  }

  lemma HeadBounds(bs: seq<Range>, k: nat, size: nat)
    requires k <= |bs| && Within(bs, size)
    ensures |Head(bs, k)| == Before(bs, k) && InBounds(Head(bs, k), size)
  {
    HeadIsExpand(bs, k);
    ExpandWithin(bs[..k], size);
  }

  /** An open block device with its file position.  Any operation may fail. */
  class Fd {
    var bytes: seq<bv8>
    var offset: nat
    const isRetry: bool

    constructor (bytes: seq<bv8>, isRetry: bool)
      ensures this.bytes == bytes && this.isRetry == isRetry
    {
      this.bytes, this.isRetry := bytes, isRetry;
    }

    method Seek(to: nat) returns (ok: bool)
      modifies this`offset
      ensures ok ==> offset == to
    {
      ok := *;
      if ok { offset := to; }
    }

    /** discard_blocks: on a retry the range may hold anything afterwards. */
    method Discard(at: nat, size: nat) returns (ok: bool)
      requires at + size <= |bytes|
      modifies this`bytes
      ensures |bytes| == |old(bytes)|
      ensures forall p :: 0 <= p < |bytes| && !(at <= p < at + size) ==> bytes[p] == old(bytes)[p]
    {
      if !isRetry { return true; }
      Scramble(at, size);
      ok := *;
    }

    method Scramble(at: nat, size: nat)
      requires at + size <= |bytes|
      modifies this`bytes
      ensures |bytes| == |old(bytes)|
      ensures forall p :: 0 <= p < |bytes| && !(at <= p < at + size) ==> bytes[p] == old(bytes)[p]
    {
      var p := at;
      while p < at + size
        invariant at <= p <= at + size && |bytes| == |old(bytes)|
        invariant forall p :: 0 <= p < |bytes| && !(at <= p < at + size) ==> bytes[p] == old(bytes)[p]
      {
        var junk: bv8 := *;
        bytes := bytes[p := junk];
        p := p + 1;
      }
    }

    /** write_all: after a failure the device may hold anything where it was writing. */
    method WriteAll(data: seq<bv8>) returns (ok: bool)
      modifies this`bytes, this`offset
      ensures |bytes| == |old(bytes)|
      ensures ok ==> old(offset) + |data| <= |bytes| && offset == old(offset) + |data|
      ensures ok ==> bytes == Overwrite(old(bytes), old(offset), data)
    {
      ok := *;
      if ok && offset + |data| <= |bytes| {
        bytes := Overwrite(bytes, offset, data);
        offset := offset + |data|;
      } else {
        if offset + |data| <= |bytes| { Scramble(offset, |data|); }
        ok := false;
      }
    }
  }

  /** With the ranges before `next` opened and `left` bytes of the last of them unwritten, the device
      is the one `fed` was written to from `base`, except for those `left` bytes. */
  ghost predicate Streamed(base: seq<bv8>, dev: seq<bv8>, bs: seq<Range>, next: nat, left: nat, fed: seq<bv8>) {
    && Within(bs, |base|) && |dev| == |base| && next <= |bs|
    && |Head(bs, next)| == Before(bs, next) && InBounds(Head(bs, next), |base|)
    && |fed| + left == Before(bs, next) && (left > 0 ==> next > 0 && left <= Length(bs[next - 1]))
    && forall p :: 0 <= p < |dev| && !(left > 0 && bs[next - 1].second - left <= p < bs[next - 1].second) ==>
         dev[p] == Put(base, Head(bs, next)[..|fed|], fed)[p]
  }

  lemma StreamedStarts(base: seq<bv8>, bs: seq<Range>)
    requires Within(bs, |base|)
    ensures Streamed(base, base, bs, 0, 0, [])
  {
  }

  /** Opening the next range may discard it. */
  lemma StreamedSeek(base: seq<bv8>, dev: seq<bv8>, dev': seq<bv8>, bs: seq<Range>, next: nat, fed: seq<bv8>)
    requires Streamed(base, dev, bs, next, 0, fed) && next < |bs| && |dev'| == |dev|
    requires forall p :: 0 <= p < |dev| && !(bs[next].first <= p < bs[next].second) ==> dev'[p] == dev[p]
    ensures Streamed(base, dev', bs, next + 1, Length(bs[next]), fed)
  {
    hide Put;
    HeadBounds(bs, next + 1, |base|);
    assert Head(bs, next + 1)[..|fed|] == Head(bs, next) == Head(bs, next)[..|fed|];
  }

  lemma StreamedWrite(base: seq<bv8>, dev: seq<bv8>, bs: seq<Range>, next: nat, left: nat, fed: seq<bv8>,
                      piece: seq<bv8>)
    requires Streamed(base, dev, bs, next, left, fed) && 0 < |piece| <= left
    ensures bs[next - 1].second - left + |piece| <= |dev|
    ensures Streamed(base, Overwrite(dev, bs[next - 1].second - left, piece), bs, next, left - |piece|, fed + piece)
  {
    hide Put;
    var end := bs[next - 1].second;
    var at, n := end - left, |fed|;
    var cells := Head(bs, next);
    CellsInRange(bs, next, left, |piece|);
    var pieceCells := Interval(Range(at, at + |piece|));
    assert cells[..n + |piece|] == cells[..n] + pieceCells;
    PutSplits(base, cells[..n], pieceCells, fed, piece);
    PutInterval(Put(base, cells[..n], fed), Range(at, at + |piece|), piece);
  }

  lemma CellsInRange(bs: seq<Range>, next: nat, left: nat, n: nat)
    requires 0 < next <= |bs| && n <= left <= Length(bs[next - 1]) && |Head(bs, next)| == Before(bs, next)
    ensures var from, at := Before(bs, next) - left, bs[next - 1].second - left;
            0 <= from && 0 <= at && Head(bs, next)[from..from + n] == Interval(Range(at, at + n))
  {
    var r := bs[next - 1];
    assert Head(bs, next) == Head(bs, next - 1) + Interval(r);
  }

  lemma StreamedAll(base: seq<bv8>, dev: seq<bv8>, bs: seq<Range>, fed: seq<bv8>)
    requires Streamed(base, dev, bs, |bs|, 0, fed)
    ensures |fed| == |Expand(bs)| == Total(bs) && InBounds(Expand(bs), |base|) && dev == Put(base, Expand(bs), fed)
  {
    hide Put;
    HeadAll(bs);
    BeforeAll(bs);
    assert Expand(bs)[..|fed|] == Expand(bs);
  }

  class RangeSinkWriter {
    const fd: Fd
    const tgt: seq<Range>
    var nextRange: nat
    var currentRangeLeft: nat
    var bytesWritten: nat
    /** The device when the writer was made, what it has been given since, and whether an I/O call failed. */
    ghost var base: seq<bv8>
    ghost var fed: seq<bv8>
    ghost var broken: bool

    /** The accounting holds even after a failed I/O call; what the device holds only before one. */
    ghost predicate Valid()
      reads this, fd
    {
      Midway(0)
    }

    /** Valid, but for `pending` bytes that have been written and not been counted yet. */
    ghost predicate Midway(pending: nat)
      reads this, fd
    {
      var bs := InBytes(tgt);
      && tgt != [] && Within(bs, |fd.bytes|) && nextRange <= |bs|
      && bytesWritten + pending + currentRangeLeft == Before(bs, nextRange)
      && (currentRangeLeft > 0 ==> nextRange > 0)
      && (!broken ==>
            && |fed| == bytesWritten + pending && Streamed(base, fd.bytes, bs, nextRange, currentRangeLeft, fed)
            && (currentRangeLeft > 0 ==> fd.offset == bs[nextRange - 1].second - currentRangeLeft))
    }

    constructor (fd: Fd, tgt: seq<Range>)
      requires tgt != [] && Within(InBytes(tgt), |fd.bytes|)
      ensures this.fd == fd && this.tgt == tgt && Valid() && !broken && base == fd.bytes && fed == []
    {
      this.fd, this.tgt := fd, tgt;
      nextRange, currentRangeLeft, bytesWritten := 0, 0, 0;
      base, fed, broken := fd.bytes, [], false;
      new;
      StreamedStarts(base, InBytes(tgt));
    }

    /** Finished exactly when no space is left. */
    predicate Finished()
      requires Valid()
      reads this, fd
      ensures Finished() <==> AvailableSpace() == 0
    {
      InBytesTotal(tgt);
      BeforeAll(InBytes(tgt));
      BeforeGrows(InBytes(tgt), nextRange, |tgt|);
      nextRange == |tgt| && currentRangeLeft == 0
    }

    /** Written, left in the current range and remaining ranges always add up to the total. */
    function AvailableSpace(): (n: nat)
      requires Valid()
      reads this, fd
      ensures bytesWritten + n == Total(tgt) * BLOCK_SIZE
      ensures n == currentRangeLeft + (Total(InBytes(tgt)) - Before(InBytes(tgt), nextRange))
    {
      InBytesTotal(tgt);
      BeforeAll(InBytes(tgt));
      BeforeGrows(InBytes(tgt), nextRange, |tgt|);
      Total(tgt) * BLOCK_SIZE - bytesWritten
    }

    /** A finished writer has done what the batch writer does with all it was given. */
    lemma FinishedIsBatch()
      requires Valid() && Finished() && !broken
      ensures |fed| == |Expand(InBytes(tgt))| == Total(tgt) * BLOCK_SIZE && InBounds(Expand(InBytes(tgt)), |base|)
      ensures fd.bytes == Put(base, Expand(InBytes(tgt)), fed)
    {
      InBytesTotal(tgt);
      StreamedAll(base, fd.bytes, InBytes(tgt), fed);
    }

    /** Set up the output cursor, moving to the next range if needed. */
    method SeekToOutputRange(ghost pending: nat) returns (ok: bool)
      requires Midway(pending)
      modifies this`currentRangeLeft, this`nextRange, this`broken, fd
      ensures Midway(pending)
      ensures ok ==> broken == old(broken) && currentRangeLeft > 0
      ensures !ok ==> broken || bytesWritten + pending == Total(tgt) * BLOCK_SIZE
      ensures old(broken) ==> broken
    {
      hide Streamed, Before, Total;
      if currentRangeLeft != 0 { return true; }
      if nextRange >= |tgt| {
        InBytesTotal(tgt);
        BeforeAll(InBytes(tgt));
        return false;
      }
      var range := tgt[nextRange];
      assert InBytes(tgt)[nextRange].first < InBytes(tgt)[nextRange].second;
      var offset := range.first * BLOCK_SIZE;
      ghost var before := fd.bytes;
      currentRangeLeft := (range.second - range.first) * BLOCK_SIZE;
      nextRange := nextRange + 1;
      NextBefore(InBytes(tgt), nextRange - 1);
      ok := fd.Discard(offset, currentRangeLeft);
      if !broken { StreamedSeek(base, before, fd.bytes, InBytes(tgt), nextRange - 1, fed); }
      if ok { ok := fd.Seek(offset); }
      if !ok { broken := true; }
    }

    /** Returns the number of bytes written: all that was given or all there was room for, unless an
        I/O call failed. */
    method Write(data: seq<bv8>) returns (written: nat)
      requires Valid()
      modifies this, fd
      ensures Valid() && base == old(base) && written <= |data| && bytesWritten == old(bytesWritten) + written
      ensures !broken ==> !old(broken) && fed == old(fed) + data[..written]
      ensures !broken ==> written == if |data| <= old(AvailableSpace()) then |data| else old(AvailableSpace())
    {
      hide Streamed, Before, Total, Put, InBytes, Expand, Overwrite, Head, Interval, Within;
      ghost var space := AvailableSpace();
      if Finished() { return 0; }
      written := WriteLoop(data);
      bytesWritten := bytesWritten + written;
    }

    /** The loop of Write; what it has written is not counted yet. */
    method WriteLoop(data: seq<bv8>) returns (written: nat)
      requires Midway(0)
      modifies this`currentRangeLeft, this`nextRange, this`broken, this`fed, fd
      ensures Midway(written) && written <= |data| && (old(broken) ==> broken)
      ensures !broken ==>
                && fed == old(fed) + data[..written] && bytesWritten + written <= Total(tgt) * BLOCK_SIZE
                && (written == |data| || bytesWritten + written == Total(tgt) * BLOCK_SIZE)
    {
      hide Midway, Total;
      written := 0;
      var size := |data|;
      while size > 0
        invariant 0 <= size && written + size == |data| && Midway(written) && (old(broken) ==> broken)
        invariant !broken ==> fed == old(fed) + data[..written]
      {
        var ok := SeekToOutputRange(written);
        if !ok { break; }
        var writeNow := if currentRangeLeft < size then currentRangeLeft else size;
        ok := WritePiece(data[written..written + writeNow], written);
        if !ok { break; }
        assert data[..written] + data[written..written + writeNow] == data[..written + writeNow];
        written, size := written + writeNow, size - writeNow;
      }
      AtMostTotal(written);
    }

    lemma AtMostTotal(pending: nat)
      requires Midway(pending)
      ensures bytesWritten + pending <= Total(tgt) * BLOCK_SIZE
    {
      InBytesTotal(tgt);
      BeforeAll(InBytes(tgt));
      BeforeGrows(InBytes(tgt), nextRange, |tgt|);
    }

    method WritePiece(piece: seq<bv8>, ghost pending: nat) returns (ok: bool)
      requires Midway(pending) && 0 < |piece| <= currentRangeLeft
      modifies this`currentRangeLeft, this`broken, this`fed, fd
      ensures ok ==> Midway(pending + |piece|) && broken == old(broken) && fed == old(fed) + piece
      ensures !ok ==> Midway(pending) && broken
    {
      hide Put;
      ghost var before := fd.bytes;
      ok := fd.WriteAll(piece);
      if ok {
        if !broken { StreamedWrite(base, before, InBytes(tgt), nextRange, currentRangeLeft, fed, piece); }
        currentRangeLeft := currentRangeLeft - |piece|;
        fed := fed + piece;
      } else {
        broken := true;
      }
    }
  }

  lemma NextBefore(bs: seq<Range>, k: nat)
    requires k < |bs|
    ensures Before(bs, k + 1) == Before(bs, k) + Length(bs[k])
  {
  }

  /** WriteBlocks: range by range from one buffer. */
  method WriteBlocks(tgt: seq<Range>, buffer: seq<bv8>, fd: Fd) returns (ok: bool)
    requires Within(InBytes(tgt), |fd.bytes|) && Total(tgt) * BLOCK_SIZE <= |buffer|
    modifies fd
    ensures ok ==> var n := Total(tgt) * BLOCK_SIZE;
                   && |Expand(InBytes(tgt))| == n && InBounds(Expand(InBytes(tgt)), |old(fd.bytes)|)
                   && fd.bytes == Put(old(fd.bytes), Expand(InBytes(tgt)), buffer[..n])
  {
    hide Streamed, Before, Total, Put;
    ghost var base, bs := fd.bytes, InBytes(tgt);
    StreamedStarts(base, bs);
    InBytesTotal(tgt);
    BeforeAll(bs);
    var written, i := 0, 0;
    NothingBefore(bs);
    while i < |tgt|
      invariant i <= |tgt| && 0 <= written == Before(bs, i) <= |buffer|
      invariant |fd.bytes| == |base| && Streamed(base, fd.bytes, bs, i, 0, buffer[..written])
    {
      var range := tgt[i];
      ghost var r := bs[i];
      assert r.first < r.second <= |fd.bytes|;
      var offset, size := range.first * BLOCK_SIZE, (range.second - range.first) * BLOCK_SIZE;
      NextBefore(bs, i);
      BeforeGrows(bs, i + 1, |bs|);
      ghost var before := fd.bytes;
      ok := fd.Discard(offset, size);
      if !ok { return false; }
      StreamedSeek(base, before, fd.bytes, bs, i, buffer[..written]);
      ok := fd.Seek(offset);
      if !ok { return false; }
      before := fd.bytes;
      ok := fd.WriteAll(buffer[written..written + size]);
      if !ok { return false; }
      StreamedWrite(base, before, bs, i + 1, size, buffer[..written], buffer[written..written + size]);
      assert buffer[..written] + buffer[written..written + size] == buffer[..written + size];
      written := written + size;
      i := i + 1;
    }
    StreamedAll(base, fd.bytes, bs, buffer[..written]);
    return true;
  }

  lemma NothingBefore(bs: seq<Range>)
    ensures Before(bs, 0) == 0
  {
  }
}
