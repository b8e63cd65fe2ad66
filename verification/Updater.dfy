/** The transfer-list executor: block_image_verify and block_image_update over one partition.

    The fields above the line survive a power cut; the others belong to one run.  Every durable
    operation may be the last one before an interruption (a power cut, or an I/O error, which stops
    the run in the same way); a block that is being written or discarded may then hold anything. */
module Updater {
  import opened Basics
  import opened RangeSets
  import opened Scatter
  import opened TransferList
  import opened Resume

  /** Stopped: interrupted.  Failed: the run itself gave up. */
  datatype Outcome = Ok | Stopped | Failed

  datatype LoadStatus = Ready | AlreadyDone | Unavailable | Interruption

  /** No file whose contents match its name has been removed. */
  ghost predicate KeepsMatching(before: map<Digest, seq<Block>>, after: map<Digest, seq<Block>>) {
    forall id :: id in before && before[id] == id.content ==> id in after && after[id] == before[id]
  }

  function Checked(r: Option<seq<Block>>, id: Digest): Option<seq<Block>> {
    if r.Some? && Digest(r.value) == id then r else None
  }

  /** What the table holds for a reference is what loading its stash finds, if it finds anything. */
  ghost predicate Found(d: Disk, origin: map<Digest, seq<Range>>, canwrite: bool, table: map<Digest, seq<Block>>,
                        ref: StashRef)
    requires OriginsWithin(origin, |d.dev|)
  {
    var content := Lookup(d, origin, canwrite, ref.id);
    && (ref.id in table <==> content.Some?)
    && (content.Some? ==> table[ref.id] == content.value && |content.value| == Total(ref.locs))
  }

  ghost predicate FoundAll(d: Disk, origin: map<Digest, seq<Range>>, canwrite: bool, table: map<Digest, seq<Block>>,
                           refs: seq<StashRef>)
    requires OriginsWithin(origin, |d.dev|)
  {
    forall i :: 0 <= i < |refs| ==> Found(d, origin, canwrite, table, refs[i])
  }

  lemma LoadableIsFound(d: Disk, origin: map<Digest, seq<Range>>, canwrite: bool, table: map<Digest, seq<Block>>,
                        refs: seq<StashRef>)
    requires OriginsWithin(origin, |d.dev|) && RefsLoadable(d, origin, canwrite, refs) && TableFits(table, refs)
    ensures FoundAll(d, origin, canwrite, table, refs)
  {
    hide Lookup;
  }

  /** The saved index has been confirmed by a dry run. */
  ghost predicate Confirmed(job: Job, d: Disk) {
    Good(job) && |d.dev| == |job.img| && IndexConfirmed(job, d)
  }

  method ReusedBuffer(n: nat) returns (b: seq<Block>)
    ensures |b| == n
  {
    b := [];
    while |b| < n
      invariant |b| <= n
    {
      var junk: Block := *;
      b := b + [junk];
    }
  }

  /** MoveRange with source and destination the same buffer. */
  method SpreadInPlace(buf: seq<Block>, locs: seq<Range>) returns (r: seq<Block>)
    requires Ascending(locs) && Within(locs, |buf|) && Total(locs) <= |buf|
    ensures |Expand(locs)| == Total(locs) && InBounds(Expand(locs), |buf|)
    ensures r == Put(buf, Expand(locs), buf[..Total(locs)])
  {
    var blocks := new Block[|buf|](i requires 0 <= i < |buf| => buf[i]);
    assert blocks[..] == buf;
    MoveRange(blocks, locs, blocks);
    r := blocks[..];
  }

  ghost predicate WrittenTo(before: seq<Block>, after: seq<Block>, locs: seq<nat>, data: seq<Block>) {
    |locs| == |data| && InBounds(locs, |before|) && after == Put(before, locs, data)
  }

  /** A dry run touches neither the device nor the saved index, and removes no good stash file. */
  ghost predicate DryRunFrame(before: Disk, after: Disk) {
    && after.dev == before.dev && after.last == before.last
    && KeepsMatching(before.stash, after.stash) && Fewer(after.stash, before.stash)
  }

  /** Some files may have gone; those that are left are as they were. */
  ghost predicate Fewer(after: map<Digest, seq<Block>>, before: map<Digest, seq<Block>>) {
    forall id :: id in after ==> id in before && after[id] == before[id]
  }

  /** The same, but for the file of one name. */
  ghost predicate FewerBut(after: map<Digest, seq<Block>>, before: map<Digest, seq<Block>>, key: Digest) {
    forall id :: id in after && id != key ==> id in before && after[id] == before[id]
  }

  ghost predicate SameOutside(before: seq<Block>, after: seq<Block>, locs: seq<nat>) {
    |after| == |before| && forall b :: 0 <= b < |after| && b !in locs ==> after[b] == before[b]
  }

  // ---------- transfers that cannot be executed ----------

  /** Neither the target nor the packed source of a transfer is on the device. */
  ghost predicate NotThere(dev: seq<Block>, c: Command)
    requires WellFormedCommand(c, |dev|)
  {
    CommandBounds(c, |dev|);
    && IsTransfer(c) && Digest(Gather(dev, Targets(c))) != TargetHash(c)
    && (Packed(c.source) ==> Digest(Gather(dev, Reads(c))) != SourceHash(c))
  }

  ghost predicate FailsAt(p: Package, dev: seq<Block>, j: nat)
    requires WellFormed(p, |dev|) && j < |p.cmds|
  {
    WellFormedCommandAt(p, |dev|, j);
    NotThere(dev, p.cmds[j])
  }

  /** No good stash file has the content, and no command before i stashes it. */
  ghost predicate NoStashOf(p: Package, stash: map<Digest, seq<Block>>, i: nat, hash: Digest)
    requires i <= |p.cmds|
  {
    && (hash in stash ==> Digest(stash[hash]) != hash)
    && forall j :: 0 <= j < i ==> !(p.cmds[j].Stash? && p.cmds[j].id == hash)
  }

  /** Transfer i is neither done nor can its source be had from anywhere. */
  ghost predicate Hopeless(p: Package, dev: seq<Block>, stash: map<Digest, seq<Block>>, i: nat)
    requires WellFormed(p, |dev|) && i < |p.cmds|
  {
    var c := p.cmds[i];
    WellFormedCommandAt(p, |dev|, i);
    NotThere(dev, c) && Packed(c.source) && (Overlapping(c) ==> NoStashOf(p, stash, i, SourceHash(c)))
  }

  ghost predicate NoneHopeless(p: Package, dev: seq<Block>, stash: map<Digest, seq<Block>>, i: nat)
    requires WellFormed(p, |dev|) && i <= |p.cmds|
  {
    forall j :: 0 <= j < i ==> !Hopeless(p, dev, stash, j)
  }

  ghost predicate SomeFails(p: Package, dev: seq<Block>)
    requires WellFormed(p, |dev|)
  {
    exists j :: 0 <= j < |p.cmds| && FailsAt(p, dev, j)
  }

  /** No command before i writes what command i reads or writes, or stashes its source. */
  ghost predicate Undisturbed(p: Package, i: nat)
    requires i < |p.cmds|
  {
    forall j :: 0 <= j < i ==>
      && (forall b :: b in Targets(p.cmds[j]) ==> b !in Targets(p.cmds[i]) && b !in Reads(p.cmds[i]))
      && (IsTransfer(p.cmds[j]) && IsTransfer(p.cmds[i]) ==> SourceHash(p.cmds[j]) != SourceHash(p.cmds[i]))
  }

  /** No transfer from `from` on and before n is hopeless and undisturbed. */
  ghost predicate NoneDoomed(p: Package, dev: seq<Block>, stash: map<Digest, seq<Block>>, from: int, n: nat)
    requires WellFormed(p, |dev|) && n <= |p.cmds|
  {
    forall j :: 0 <= j < n && from <= j ==> !(Hopeless(p, dev, stash, j) && Undisturbed(p, j))
  }

  /** Blocks that no command before i writes are as they were. */
  ghost predicate Kept(p: Package, before: seq<Block>, after: seq<Block>, i: nat)
    requires i <= |p.cmds|
  {
    && |after| == |before|
    && forall b :: 0 <= b < |after| && (forall j :: 0 <= j < i ==> b !in Targets(p.cmds[j])) ==> after[b] == before[b]
  }

  /** The command may make a stash file of that name. */
  ghost predicate MayStash(c: Command, id: Digest) {
    (IsTransfer(c) && SourceHash(c) == id) || (c.Stash? && c.id == id)
  }

  ghost predicate StashKept(p: Package, before: map<Digest, seq<Block>>, after: map<Digest, seq<Block>>, i: nat)
    requires i <= |p.cmds|
  {
    forall id :: id in after && (forall j :: 0 <= j < i ==> !MayStash(p.cmds[j], id)) ==>
      id in before && after[id] == before[id]
  }

  /** What a command of an update leaves of the stash. */
  ghost predicate StashAfter(c: Command, before: map<Digest, seq<Block>>, after: map<Digest, seq<Block>>) {
    forall id :: id in after && !MayStash(c, id) ==> id in before && after[id] == before[id]
  }

  lemma KeptNext(p: Package, dev0: seq<Block>, before: seq<Block>, after: seq<Block>, i: nat)
    requires i < |p.cmds| && Kept(p, dev0, before, i) && SameOutside(before, after, Targets(p.cmds[i]))
    ensures Kept(p, dev0, after, i + 1)
  {
    hide Targets;
    forall b | 0 <= b < |after| && (forall j :: 0 <= j < i + 1 ==> b !in Targets(p.cmds[j]))
      ensures after[b] == dev0[b] {
      assert b !in Targets(p.cmds[i]);
      assert forall j :: 0 <= j < i ==> b !in Targets(p.cmds[j]);
    }
  }

  lemma StashKeptNext(p: Package, stash0: map<Digest, seq<Block>>, before: map<Digest, seq<Block>>,
                      after: map<Digest, seq<Block>>, i: nat)
    requires i < |p.cmds| && StashKept(p, stash0, before, i) && StashAfter(p.cmds[i], before, after)
    ensures StashKept(p, stash0, after, i + 1)
  {
    hide MayStash;
    forall id | id in after && (forall j :: 0 <= j < i + 1 ==> !MayStash(p.cmds[j], id))
      ensures id in stash0 && after[id] == stash0[id]
    {
      assert !MayStash(p.cmds[i], id);
      assert forall j :: 0 <= j < i ==> !MayStash(p.cmds[j], id);
    }
  }

  lemma SkippedKeeps(p: Package, dev0: seq<Block>, dev: seq<Block>, stash0: map<Digest, seq<Block>>,
                     stash: map<Digest, seq<Block>>, i: nat)
    requires i < |p.cmds| && Kept(p, dev0, dev, i) && StashKept(p, stash0, stash, i)
    ensures Kept(p, dev0, dev, i + 1) && StashKept(p, stash0, stash, i + 1)
  {
    KeptNext(p, dev0, dev, dev, i);
    StashKeptNext(p, stash0, stash, stash, i);
  }

  lemma GatherSame(dev: seq<Block>, dev': seq<Block>, locs: seq<nat>)
    requires |dev| == |dev'| && InBounds(locs, |dev|) && forall b :: b in locs ==> dev'[b] == dev[b]
    ensures Gather(dev', locs) == Gather(dev, locs)
  {
    forall q | 0 <= q < |locs| ensures dev'[locs[q]] == dev[locs[q]] {
      assert locs[q] in locs;
    }
  }

  lemma FewerTransitive(a: map<Digest, seq<Block>>, b: map<Digest, seq<Block>>, c: map<Digest, seq<Block>>)
    requires Fewer(b, a) && Fewer(c, b)
    ensures Fewer(c, a)
  {
  }

  lemma StashUnchanged(a: map<Digest, seq<Block>>, key: Digest)
    ensures KeepsMatching(a, a) && Fewer(a, a) && FewerBut(a, a, key)
  {
  }

  lemma FewerItself(a: map<Digest, seq<Block>>)
    ensures Fewer(a, a)
  {
  }

  /** The remembered ranges are those of stash commands before i. */
  ghost predicate OriginsFrom(p: Package, origin: map<Digest, seq<Range>>, i: nat)
    requires i <= |p.cmds|
  {
    forall id :: id in origin ==> exists j :: 0 <= j < i && p.cmds[j].Stash? && p.cmds[j].id == id
  }

  lemma OriginsNext(p: Package, origin: map<Digest, seq<Range>>, origin': map<Digest, seq<Range>>, i: nat)
    requires i < |p.cmds| && OriginsFrom(p, origin, i)
    requires forall id :: id in origin' ==> id in origin || (p.cmds[i].Stash? && p.cmds[i].id == id)
    ensures OriginsFrom(p, origin', i + 1)
  {
    forall id | id in origin' ensures exists j :: 0 <= j < i + 1 && p.cmds[j].Stash? && p.cmds[j].id == id {
      if id in origin {
        var j :| 0 <= j < i && p.cmds[j].Stash? && p.cmds[j].id == id;
      } else {
        assert p.cmds[i].Stash? && p.cmds[i].id == id;
      }
    }
  }

  lemma NoOrigins(blocks: nat)
    ensures OriginsWithin(map[], blocks)
  {
  }

  lemma KeepsMatchingItself(stash: map<Digest, seq<Block>>)
    ensures KeepsMatching(stash, stash)
  {
  }

  lemma KeepsMatchingTransitive(a: map<Digest, seq<Block>>, b: map<Digest, seq<Block>>, c: map<Digest, seq<Block>>)
    requires KeepsMatching(a, b) && KeepsMatching(b, c)
    ensures KeepsMatching(a, c)
  {
  }

  lemma NothingKept(before: map<Digest, seq<Block>>, after: map<Digest, seq<Block>>)
    requires Fewer(after, before) && before == map[]
    ensures after == before
  {
  }

  class BlockImage {
    var dev: seq<Block>
    var stashDir: bool
    var stash: map<Digest, seq<Block>>
    var lastCommand: Option<int>
    // ----------
    var stashMap: map<Digest, seq<Range>>
    var isRetry: bool
    var canwrite: bool
    var createdstash: bool
    var freestash: Option<Digest>
    var isunresumable: bool
    var targetVerified: bool
    var buffer: seq<Block>
    var streamPos: nat
    /** The first command that may be incomplete. */
    ghost var frontier: nat
    /** Saving the index has failed. */
    ghost var unsaved: bool
    /** An interruption has struck; only Proceed says so. */
    ghost var cut: bool

    ghost function State(): Disk
      reads this
    {
      Disk(dev, stash, lastCommand)
    }

    ghost predicate Valid()
      reads this
    {
      OriginsWithin(stashMap, |dev|) && (stash != map[] ==> stashDir) && (canwrite ==> stashDir)
    }

    /** Whether the next durable operation still takes place. */
    method Proceed() returns (alive: bool)
      modifies this`cut
      ensures cut == (old(cut) || !alive)
    {
      alive := *;
      cut := cut || !alive;
    }

    // ---------- writing ----------

    /** discard_blocks: the range may hold anything afterwards. */
    method Discard(range: Range)
      requires range.second <= |dev|
      modifies this`dev
      ensures |dev| == |old(dev)|
      ensures forall b :: 0 <= b < |dev| && !(range.first <= b < range.second) ==> dev[b] == old(dev)[b]
    {
      var b := range.first;
      while b < range.second
        invariant |dev| == |old(dev)|
        invariant forall b :: 0 <= b < |dev| && !(range.first <= b < range.second) ==> dev[b] == old(dev)[b]
      {
        var junk: Block := *;
        dev := dev[b := junk];
        b := b + 1;
      }
    }

    method WriteRange(range: Range, data: seq<Block>) returns (st: Outcome)
      requires range.first < range.second <= |dev| && |data| == Length(range)
      modifies this`dev, this`cut
      ensures cut == (old(cut) || st == Stopped)
      ensures |dev| == |old(dev)| && st != Failed
      ensures forall b :: 0 <= b < |dev| && !(range.first <= b < range.second) ==> dev[b] == old(dev)[b]
      ensures st == Ok ==> dev == Overwrite(old(dev), range.first, data)
    {
      if isRetry {
        var alive := Proceed();
        Discard(range);
        if !alive { return Stopped; }
      }
      var j := 0;
      while j < |data|
        invariant j <= |data| && |dev| == |old(dev)|
        invariant forall b :: 0 <= b < |dev| && !(range.first <= b < range.second) ==> dev[b] == old(dev)[b]
        invariant dev[range.first..range.first + j] == data[..j] && cut == old(cut)
      {
        var alive := Proceed();
        if !alive {
          var torn: Block := *;
          dev := dev[range.first + j := torn];
          return Stopped;
        }
        ghost var before := dev;
        dev := dev[range.first + j := data[j]];
        assert dev[range.first..range.first + (j + 1)] == before[range.first..range.first + j] + [data[j]];
        j := j + 1;
      }
      assert data[..j] == data;
      OverwriteIs(old(dev), dev, range.first, data);
      return Ok;
    }

    method WriteBlocks(tgt: seq<Range>, data: seq<Block>) returns (st: Outcome)
      requires Within(tgt, |dev|) && |data| == Total(tgt)
      modifies this`dev, this`cut
      ensures cut == (old(cut) || st == Stopped)
      ensures |dev| == |old(dev)| && st != Failed
      ensures forall b :: 0 <= b < |dev| && b !in Expand(tgt) ==> dev[b] == old(dev)[b]
      ensures st == Ok ==>
                |Expand(tgt)| == |data| && InBounds(Expand(tgt), |dev|) && dev == Put(old(dev), Expand(tgt), data)
    {
      hide Put, Overwrite, Expand, Total, InBounds;
      NothingWritten(dev, tgt, data);
      var i, written := 0, 0;
      while i < |tgt|
        invariant i <= |tgt| && |dev| == |old(dev)| && written == Before(tgt, i) && cut == old(cut)
        invariant WrittenSoFar(old(dev), dev, tgt, data, i)
      {
        var range := tgt[i];
        var size := range.second - range.first;
        WrittenBounds(tgt, i);
        ghost var before := dev;
        st := WriteRange(range, data[written..written + size]);
        if st == Stopped {
          WrittenFrame(old(dev), before, dev, tgt, data, i);
          return;
        }
        WrittenStep(old(dev), before, dev, tgt, data, i);
        written := written + size;
        i := i + 1;
      }
      WrittenAll(old(dev), dev, tgt, data);
      return Ok;
    }

    /** A writer that stops short: the targets may hold anything. */
    method WriteSome(tgt: seq<Range>) returns (alive: bool)
      requires Within(tgt, |dev|)
      modifies this`dev, this`cut
      ensures cut == (old(cut) || !alive)
      ensures |dev| == |old(dev)|
      ensures forall b :: 0 <= b < |dev| && b !in Expand(tgt) ==> dev[b] == old(dev)[b]
    {
      alive := Proceed();
      var i := 0;
      while i < |tgt|
        invariant i <= |tgt| && |dev| == |old(dev)| && cut == (old(cut) || !alive)
        invariant forall b :: 0 <= b < |dev| && b !in Expand(tgt) ==> dev[b] == old(dev)[b]
      {
        Discard(tgt[i]);
        forall b: nat | tgt[i].first <= b < tgt[i].second ensures b in Expand(tgt) {
          ExpandCovers(tgt, b);
        }
        i := i + 1;
      }
    }

    // ---------- stash files and the saved index ----------

    /** Load a stash; with `verify` a file whose contents do not match its name is deleted. */
    method LoadStash(id: Digest, verify: bool) returns (st: Outcome, r: Option<seq<Block>>)
      requires Valid()
      modifies this`stash, this`cut
      ensures cut == (old(cut) || st == Stopped)
      ensures Valid() && st != Failed
      ensures KeepsMatching(old(stash), stash) && Fewer(stash, old(stash))
      ensures !verify || Honest(old(stash)) ==> st == Ok && stash == old(stash)
      ensures !verify ==> r == Lookup(State(), stashMap, canwrite, id)
      ensures verify && st == Ok ==> r == Checked(old(Lookup(State(), stashMap, canwrite, id)), id)
      ensures st == Ok ==> stash == if verify && old(Mismatched(id)) then old(stash) - {id} else old(stash)
    {
      // In a dry run look at the remembered source blocks first.
      if !canwrite && id in stashMap {
        ExpandWithin(stashMap[id], |dev|);
        var content := Gather(dev, Expand(stashMap[id]));
        return Ok, if Digest(content) == id then Some(content) else None;
      }
      if id !in stash { return Ok, None; }
      var content := stash[id];
      if verify && Digest(content) != id {
        var alive := DeleteFile(id);
        return if alive then Ok else Stopped, None;
      }
      return Ok, Some(content);
    }

    /** The file is looked at, and its contents do not match its name. */
    ghost predicate Mismatched(id: Digest)
      reads this
    {
      (canwrite || id !in stashMap) && id in stash && Digest(stash[id]) != id
    }

    /** Unlink a stash file. */
    method DeleteFile(id: Digest) returns (alive: bool)
      requires stash != map[] ==> stashDir
      modifies this`stash, this`cut
      ensures cut == (old(cut) || !alive)
      ensures stash == old(stash) || stash == old(stash) - {id}
      ensures alive ==> stash == old(stash) - {id}
    {
      alive := Proceed();
      if alive {
        stash := stash - {id};
        alive := Proceed();
      }
    }

    /** Write a stash under a temporary name and rename it. */
    method WriteStash(id: Digest, content: seq<Block>, checkExists: bool) returns (st: Outcome, present: bool)
      requires stashDir
      modifies this`stash, this`cut
      ensures cut == (old(cut) || st == Stopped)
      ensures st != Failed && (stash == old(stash) || stash == old(stash)[id := content])
      ensures st == Ok && !present ==> stash == old(stash)[id := content]
      ensures present <==> checkExists && id in old(stash)
      ensures present ==> st == Ok && stash == old(stash)
    {
      if checkExists && id in stash { return Ok, true; }
      var alive := Proceed();
      if !alive { return Stopped, false; }
      stash := stash[id := content];
      alive := Proceed();
      return if alive then Ok else Stopped, false;
    }

    /** Save the index; a failure to do so is only logged. */
    method UpdateLastCommandIndex(cmdindex: int) returns (alive: bool)
      modifies this`lastCommand, this`unsaved, this`cut
      ensures cut == (old(cut) || !alive)
      ensures lastCommand == old(lastCommand) || lastCommand == Some(cmdindex)
      ensures (old(unsaved) ==> unsaved) && (alive && !unsaved ==> lastCommand == Some(cmdindex))
    {
      alive := Proceed();
      var saved: bool := *;
      unsaved := unsaved || !saved;
      if alive && saved {
        lastCommand := Some(cmdindex);
        alive := Proceed();
      }
    }

    // ---------- loading ----------

    /** ReadBlocks fills the front of the buffer, MoveRange then spreads it within the buffer.  The
        buffer is reused from command to command, so it starts with arbitrary contents. */
    method ReadSource(source: Source) returns (ghost stale: seq<Block>)
      requires WellFormedSource(source, |dev|)
      modifies this`buffer
      ensures |buffer| == source.count == |stale| && buffer == PutDevice(stale, dev, source)
    {
      buffer := ReusedBuffer(source.count);
      stale := buffer;
      ExpandWithin(source.src, |dev|);
      var packed := Gather(dev, Expand(source.src));
      buffer := packed + buffer[|packed|..];
      if source.locs != [] {
        stale := buffer;
        assert stale[..|packed|] == packed;
        buffer := SpreadInPlace(buffer, source.locs);
      }
    }

    /** Add one stash to the buffer; a stash that does not load is left out. */
    method AddStash(ref: StashRef)
      requires Valid() && Within(ref.locs, |buffer|)
      modifies this`buffer, this`stash, this`cut
      ensures cut == old(cut)
      ensures stash == old(stash) && |buffer| == old(|buffer|)
      ensures forall table: map<Digest, seq<Block>> ::
                Found(State(), stashMap, canwrite, table, ref) ==> buffer == PutStash(old(buffer), table, ref)
    {
      ExpandWithin(ref.locs, |buffer|);
      var st, content := LoadStash(ref.id, false);
      if content.Some? {
        if |content.value| == Total(ref.locs) {
          buffer := Put(buffer, Expand(ref.locs), content.value);
        } else {
          // A file of the wrong size: reads past its end.
          buffer := ReusedBuffer(|buffer|);
        }
      }
    }

    /** Read the source blocks, spread them, and add the stashes that load, which are those in the table. */
    method LoadSourceBlocks(source: Source, tgt: seq<Range>, ghost table: map<Digest, seq<Block>>)
      returns (overlap: bool, ghost stale: seq<Block>)
      requires Valid() && WellFormedSource(source, |dev|) && NonEmptyRanges(tgt)
      modifies this`buffer, this`stash, this`cut
      ensures cut == old(cut)
      ensures Valid() && stash == old(stash)
      ensures overlap <==> exists b: nat :: Covers(source.src, b) && Covers(tgt, b)
      ensures |buffer| == source.count == |stale|
      ensures FoundAll(State(), stashMap, canwrite, table, source.stashes) ==>
                buffer == Assemble(stale, dev, table, source)
    {
      hide PutStash, PutDevice, Lookup, Covers;
      overlap := RangesOverlap(source.src, tgt);
      stale := ReadSource(source);
      ghost var usable := FoundAll(State(), stashMap, canwrite, table, source.stashes);
      var i := 0;
      assert source.stashes[0..] == source.stashes;
      while i < |source.stashes|
        invariant i <= |source.stashes| && |buffer| == source.count && stash == old(stash) && cut == old(cut)
        invariant usable ==> PutStashes(buffer, table, source.stashes[i..]) == Assemble(stale, dev, table, source)
      {
        ghost var rest := source.stashes[i..];
        assert rest[0] == source.stashes[i] && rest[1..] == source.stashes[i + 1..];
        AddStash(source.stashes[i]);
        i := i + 1;
      }
    }

    /** Stash the overlapping source before the targets are written, and save the index. */
    method BackUpSource(hash: Digest, cmdindex: nat, ghost job: Job, ghost start: nat) returns (st: Outcome)
      requires Valid() && canwrite && Digest(buffer) == hash
      modifies this`stash, this`lastCommand, this`freestash, this`unsaved, this`cut
      ensures cut == (old(cut) || st == Stopped)
      ensures Valid() && st != Failed
      ensures st == Ok ==>
                && stash == (if hash in old(stash) then old(stash) else old(stash)[hash := buffer])
                && freestash == (if hash in old(stash) then old(freestash) else Some(hash))
                && (!unsaved ==> lastCommand == Some(cmdindex as int))
      ensures FewerBut(stash, old(stash), hash)
      ensures freestash == old(freestash) || freestash == Some(hash)
      ensures old(Interrupted(job, State(), frontier, start, cmdindex)) && cmdindex < |job.p.cmds|
              && Overlapping(job.p.cmds[cmdindex])
              ==> Interrupted(job, State(), frontier, start, cmdindex)
    {
      hide Interrupted, OriginsWithin;
      ghost var before := State();
      ghost var known := Interrupted(job, before, frontier, start, cmdindex) && cmdindex < |job.p.cmds|
        && Overlapping(job.p.cmds[cmdindex]);
      var stashExists;
      st, stashExists := WriteStash(hash, buffer, true);
      if known && stash != before.stash {
        InterruptedAddStash(job, before, frontier, start, cmdindex, hash);
        assert State() == before.(stash := before.stash[hash := hash.content]);
      }
      if st == Stopped { return; }
      ghost var backed := State();
      var alive := UpdateLastCommandIndex(cmdindex);
      if known && lastCommand != backed.last {
        InterruptedSaveIndex(job, backed, frontier, start, cmdindex);
        assert State() == backed.(last := Some(cmdindex as int));
      }
      if !alive { return Stopped; }
      // The backup can be deleted when the write has completed.
      if !stashExists { freestash := Some(hash); }
    }

    /** Decide whether a transfer is done already, and otherwise load its source.  An overlapping
        source is backed up before the targets may be written. */
    method LoadSrcTgtVersion3(c: Command, cmdindex: nat, ghost job: Job, ghost start: nat)
      returns (st: LoadStatus, overlap: bool)
      requires Valid() && IsTransfer(c) && WellFormedCommand(c, |dev|)
      modifies this`stash, this`lastCommand, this`buffer, this`freestash, this`isunresumable, this`unsaved, this`cut
      ensures cut == (old(cut) || st == Interruption)
      ensures Valid()
      ensures InBounds(Targets(c), |dev|)
      ensures st == AlreadyDone <==> Digest(Gather(dev, Targets(c))) == TargetHash(c)
      ensures st == AlreadyDone ==> State() == old(State()) && freestash == old(freestash)
      ensures st == Ready ==> Digest(buffer) == SourceHash(c) && overlap == Overlapping(c)
      ensures isunresumable == (old(isunresumable) || st == Unavailable)
      ensures !canwrite ==>
                KeepsMatching(old(stash), stash) && lastCommand == old(lastCommand) && freestash == old(freestash)
      ensures if canwrite then FewerBut(stash, old(stash), SourceHash(c)) else Fewer(stash, old(stash))
      ensures freestash == old(freestash) || freestash == Some(SourceHash(c))
      ensures st == Unavailable ==> NotThere(dev, c)
      ensures old(Lost(c)) ==> st == Unavailable || st == Interruption
      ensures old(CheckAt(job, c, cmdindex)) ==> State() == old(State()) && st != Unavailable
      ensures old(UpdateAt(job, c, start, cmdindex)) ==>
                && st != Unavailable && Interrupted(job, State(), frontier, start, cmdindex)
                && (st == Ready ==>
                      && frontier == cmdindex
                      && (overlap ==> SourceHash(c) in stash)
                      && (freestash.Some? ==> overlap && freestash.value == SourceHash(c)))
    {
      hide Running, Interrupted, Core, TargetHash, SourceHash, Gather, OriginsWithin, KeepsMatching, Fewer, FewerBut,
      Packed,
        OriginsKept, Expand, Overlapping;
      CommandBounds(c, |dev|);
      StashUnchanged(stash, SourceHash(c));
      if UpdateAt(job, c, start, cmdindex) {
        KnownCommand(job, c, start, cmdindex);
        RunningIsInterrupted(job, State(), frontier, start, cmdindex);
      }
      var tgtbuffer := Gather(dev, Targets(c));
      if Digest(tgtbuffer) == TargetHash(c) { return AlreadyDone, false; }
      st, overlap := LoadPending(c, cmdindex, job, start);
    }

    /** A transfer that is not done: load its source. */
    method LoadPending(c: Command, cmdindex: nat, ghost job: Job, ghost start: nat)
      returns (st: LoadStatus, overlap: bool)
      requires Valid() && IsTransfer(c) && WellFormedCommand(c, |dev|) && InBounds(Targets(c), |dev|)
      requires Digest(Gather(dev, Targets(c))) != TargetHash(c)
      modifies this`stash, this`lastCommand, this`buffer, this`freestash, this`isunresumable, this`unsaved, this`cut
      ensures cut == (old(cut) || st == Interruption)
      ensures Valid()
      ensures st != AlreadyDone
      ensures st == Ready ==> Digest(buffer) == SourceHash(c) && overlap == Overlapping(c)
      ensures isunresumable == (old(isunresumable) || st == Unavailable)
      ensures !canwrite ==>
                KeepsMatching(old(stash), stash) && lastCommand == old(lastCommand) && freestash == old(freestash)
      ensures if canwrite then FewerBut(stash, old(stash), SourceHash(c)) else Fewer(stash, old(stash))
      ensures freestash == old(freestash) || freestash == Some(SourceHash(c))
      ensures st == Unavailable ==> NotThere(dev, c)
      ensures old(Lost(c)) ==> st == Unavailable || st == Interruption
      ensures old(CheckAt(job, c, cmdindex)) ==> State() == old(State()) && st != Unavailable
      ensures old(UpdateAt(job, c, start, cmdindex)) ==>
                && st != Unavailable && Interrupted(job, State(), frontier, start, cmdindex)
                && (st == Ready ==>
                      && frontier == cmdindex
                      && (overlap ==> SourceHash(c) in stash)
                      && (freestash.Some? ==> overlap && freestash.value == SourceHash(c)))
    {
      hide Assemble, TableFits, RefsLoadable, Lookup, Running, Interrupted, Core, OriginsKept, TargetHash, SourceHash,
        Gather, WellFormed, OriginsWithin, Honest, Expand, Covers, RefRun, Guaranteed, KeepsMatching, Fewer, FewerBut,
        FoundAll, Packed, UsedBefore, Total;
      overlap := false;
      CommandBounds(c, |dev|);
      ghost var updating := UpdateAt(job, c, start, cmdindex);
      ghost var checking := CheckAt(job, c, cmdindex);
      ghost var table := map[];
      if updating || checking {
        KnownCommand(job, c, start, cmdindex);
        table := RefRun(job.p, job.img, cmdindex).table;
      }
      if updating { RunningIsInterrupted(job, State(), frontier, start, cmdindex); }
      ghost var stale;
      overlap, stale := LoadSourceBlocks(c.source, c.tgt, table);
      if Packed(c.source) { PackedLoad(c, stale, table); }
      if updating || checking {
        PendingTransfer(job, c, start, cmdindex, stale, table);
        LoadableIsFound(State(), stashMap, canwrite, table, c.source.stashes);
      }
      st := VerifySource(SourceHash(c), overlap, cmdindex, job, start);
    }

    lemma PackedLoad(c: Command, stale: seq<Block>, table: map<Digest, seq<Block>>)
      requires Valid() && IsTransfer(c) && WellFormedCommand(c, |dev|) && |stale| == c.source.count && Packed(c.source)
      ensures FoundAll(State(), stashMap, canwrite, table, c.source.stashes) && InBounds(Reads(c), |dev|)
      ensures Assemble(stale, dev, table, c.source) == Gather(dev, Reads(c))
    {
      hide Assemble, Gather;
      PackedSource(stale, dev, table, c.source);
    }

    /** The loaded source is used if its hash matches; otherwise an overlapping command may be
        recovering from its own interruption. */
    method VerifySource(hash: Digest, overlap: bool, cmdindex: nat, ghost job: Job, ghost start: nat)
      returns (st: LoadStatus)
      requires Valid()
      modifies this`stash, this`lastCommand, this`buffer, this`freestash, this`isunresumable, this`unsaved, this`cut
      ensures cut == (old(cut) || st == Interruption)
      ensures Valid() && st != AlreadyDone
      ensures st == Ready ==> Digest(buffer) == hash
      ensures isunresumable == (old(isunresumable) || st == Unavailable)
      ensures !canwrite ==> KeepsMatching(old(stash), stash)
      ensures if canwrite then FewerBut(stash, old(stash), hash) else Fewer(stash, old(stash))
      ensures Digest(old(buffer)) != hash && (overlap ==> old(NotStashed(hash))) ==>
                st == Unavailable || st == Interruption
      ensures !canwrite ==> lastCommand == old(lastCommand) && freestash == old(freestash)
      ensures !canwrite && Honest(old(stash)) ==> State() == old(State())
      ensures st == Unavailable ==> Digest(old(buffer)) != hash
      ensures st == Unavailable && overlap && Honest(old(stash)) ==>
                old(Lookup(State(), stashMap, canwrite, hash)) != Some(hash.content)
      ensures st == Ready && canwrite && overlap && Honest(old(stash)) ==> hash in stash
      ensures freestash == old(freestash) || (overlap && freestash == Some(hash))
      ensures cmdindex < |job.p.cmds| && (overlap ==> Overlapping(job.p.cmds[cmdindex]))
                && old(Interrupted(job, State(), frontier, start, cmdindex))
              ==> Interrupted(job, State(), frontier, start, cmdindex)
    {
      hide Interrupted, OriginsWithin, KeepsMatching, Overlapping;
      StashUnchanged(stash, hash);
      ghost var before := State();
      ghost var known := Interrupted(job, before, frontier, start, cmdindex) && cmdindex < |job.p.cmds|
        && (overlap ==> Overlapping(job.p.cmds[cmdindex]));
      if known { InterruptedIsHonest(job, before, frontier, start, cmdindex); }
      if Digest(buffer) == hash {
        if overlap && canwrite {
          var w := BackUpSource(hash, cmdindex, job, start);
          if w == Stopped { return Interruption; }
        }
        return Ready;
      }
      if overlap {
        var l, content := LoadStash(hash, true);
        if l == Stopped { return Interruption; }
        if content.Some? {
          // Recovering from an interrupted command.
          buffer := content.value;
          return Ready;
        }
      }
      isunresumable := true;
      return Unavailable;
    }

    ghost predicate UpdateAt(job: Job, c: Command, start: nat, i: nat)
      reads this
    {
      && canwrite && freestash == None && start <= i < |job.p.cmds| && job.p.cmds[i] == c
      && Running(job, State(), frontier, start, i)
      && streamPos == UsedBefore(job.p, i) - UsedBefore(job.p, start)
    }

    ghost predicate CheckAt(job: Job, c: Command, i: nat)
      reads this
    {
      && !canwrite && freestash == None && i < |job.p.cmds| && job.p.cmds[i] == c
      && (createdstash ==> stash == map[])
      && Core(job, State(), frontier) && OriginsKept(job, State(), stashMap, frontier, i)
    }

    lemma KnownCommand(job: Job, c: Command, start: nat, i: nat)
      requires UpdateAt(job, c, start, i) || CheckAt(job, c, i)
      ensures Good(job) && WellFormed(job.p, |job.img|) && i < |job.p.cmds| && job.p.cmds[i] == c
      ensures Core(job, State(), frontier) && |dev| == |job.img| && Honest(stash)
      ensures canwrite ==> i <= frontier
    {
    }

    /** What is known about a transfer whose target hash does not match yet. */
    lemma PendingTransfer(job: Job, c: Command, start: nat, i: nat, stale: seq<Block>, table: map<Digest, seq<Block>>)
      requires Valid() && IsTransfer(c) && WellFormedCommand(c, |dev|) && |stale| == c.source.count
      requires UpdateAt(job, c, start, i) || CheckAt(job, c, i)
      requires WellFormed(job.p, |job.img|) && table == RefRun(job.p, job.img, i).table
      requires InBounds(Targets(c), |dev|) && Digest(Gather(dev, Targets(c))) != TargetHash(c)
      ensures frontier <= i && (canwrite ==> frontier == i)
      ensures RefsLoadable(State(), stashMap, canwrite, c.source.stashes) && TableFits(table, c.source.stashes)
      ensures Digest(Assemble(stale, dev, table, c.source)) == SourceHash(c)
              || (Overlapping(c) && SourceHash(c) in stash
                  && Lookup(State(), stashMap, canwrite, SourceHash(c)) == Some(SourceHash(c).content))
    {
      KnownCommand(job, c, start, i);
      DoneIsRecognised(job, dev, i);
      NotDoneIsPending(job, State(), frontier, i);
      PendingSource(job, State(), stashMap, canwrite, frontier, i);
      RefTableFits(job, i);
      if Intact(job, dev, i) {
        IntactAssembles(job, dev, i, stale, table);
      } else {
        BackupLoads(job, State(), stashMap, canwrite, i);
      }
    }

    // ---------- the commands ----------

    /** What a command of an update leaves behind, whether it completed or was interrupted. */
    ghost predicate UpdateAfter(job: Job, start: nat, i: nat, st: Outcome)
      reads this
    {
      && Valid() && canwrite && st != Failed && start <= i < |job.p.cmds|
      && (st == Stopped ==> Interrupted(job, State(), frontier, start, i))
      && (st == Ok ==>
            && Running(job, State(), frontier, start, i + 1) && freestash == None
            && streamPos == UsedBefore(job.p, i + 1) - UsedBefore(job.p, start))
    }

    /** What a command of a dry run leaves behind. */
    ghost predicate CheckAfter(job: Job, i: nat, st: Outcome)
      reads this
    {
      && Valid() && !canwrite && st != Failed && i < |job.p.cmds|
      && (createdstash ==> stash == map[]) && freestash == None
      && Core(job, State(), frontier)
      && (st == Ok ==> OriginsKept(job, State(), stashMap, frontier, i + 1))
    }

    /** Let the patcher's (or the copied) blocks go to the targets. */
    method WriteTarget(tgt: seq<Range>, out: PatchOutput) returns (st: Outcome)
      requires Within(tgt, |dev|)
      modifies this`dev, this`cut
      ensures cut == (old(cut) || st == Stopped)
      ensures |dev| == |old(dev)|
      ensures forall b :: 0 <= b < |dev| && b !in Expand(tgt) ==> dev[b] == old(dev)[b]
      ensures out.ok && |out.blocks| == Total(tgt) ==>
                && st != Failed
                && (st == Ok ==> WrittenTo(old(dev), dev, Expand(tgt), out.blocks))
    {
      if out.ok && |out.blocks| == Total(tgt) {
        st := WriteBlocks(tgt, out.blocks);
      } else {
        // Too little output is only logged; too much makes the patcher fail.
        var alive := WriteSome(tgt);
        st := if !alive then Stopped else if out.ok && |out.blocks| < Total(tgt) then Ok else Failed;
      }
    }

    /** Execute a loaded transfer and drop its temporary backup. */
    method FinishTransfer(c: Command, load: LoadStatus, out: PatchOutput, cmdindex: nat, ghost job: Job,
                          ghost start: nat)
      returns (st: Outcome)
      requires Valid() && IsTransfer(c) && WellFormedCommand(c, |dev|) && (load == Ready || load == AlreadyDone)
      requires InBounds(Targets(c), |dev|)
      modifies this`dev, this`stash, this`freestash, this`frontier, this`cut
      ensures cut == (old(cut) || st == Stopped)
      ensures Valid() && |dev| == |old(dev)| && (st == Ok ==> freestash == None)
      ensures SameOutside(old(dev), dev, Targets(c))
      ensures canwrite && load == Ready && out.ok && |out.blocks| == Total(c.tgt) ==>
                st != Failed && (st == Ok ==> WrittenTo(old(dev), dev, Targets(c), out.blocks))
      ensures !canwrite || load == AlreadyDone ==> dev == old(dev)
      ensures st == Ok ==> stash == if old(freestash).Some? then old(stash) - {old(freestash).value} else old(stash)
      ensures stash == old(stash) || (old(freestash).Some? && stash == old(stash) - {old(freestash).value})
      ensures !canwrite && old(freestash) == None ==>
                State() == old(State()) && st == Ok && frontier == old(frontier) && freestash == None
      ensures old(LoadedForUpdate(job, c, start, cmdindex, load, out)) ==> UpdateAfter(job, start, cmdindex, st)
    {
      hide Interrupted, Running, Core, Clean, Good, Done, Want, Overlapping, SourceHash;
      ghost var updating := LoadedForUpdate(job, c, start, cmdindex, load, out);
      if canwrite && load == Ready {
        ghost var before := State();
        st := WriteTarget(c.tgt, out);
        if updating { TransferWritten(job, c, before, start, cmdindex, out, st); }
        if st != Ok { return; }
      }
      if updating {
        LoadedFacts(job, c, start, cmdindex);
        frontier := CommandCompleted(job, State(), frontier, start, cmdindex);
      }
      if freestash.Some? {
        ghost var before := State();
        var alive := DeleteFile(freestash.value);
        if updating { BackupDropped(job, before, start, cmdindex); }
        freestash := None;
        if !alive { return Stopped; }
      }
      return Ok;
    }

    lemma LoadedFacts(job: Job, c: Command, start: nat, i: nat)
      requires i < |job.p.cmds| && job.p.cmds[i] == c && IsTransfer(c)
      ensures UsedBefore(job.p, i + 1) == UsedBefore(job.p, i) && !IsFill(c)
    {
    }

    /** The state of an update between loading and writing a transfer. */
    ghost predicate LoadedForUpdate(job: Job, c: Command, start: nat, i: nat, load: LoadStatus, out: PatchOutput)
      reads this
    {
      && Valid() && canwrite && start <= i < |job.p.cmds| && job.p.cmds[i] == c && IsTransfer(c)
      && Interrupted(job, State(), frontier, start, i)
      && streamPos == UsedBefore(job.p, i) - UsedBefore(job.p, start)
      && (load == AlreadyDone ==> Done(job, dev, i) && freestash == None)
      && (load == Ready ==>
            && frontier == i && out == PatchOutput(Want(job.p, job.img, i), true)
            && (Overlapping(c) ==> SourceHash(c) in stash)
            && (freestash.Some? ==> Overlapping(c) && freestash.value == SourceHash(c)))
    }

    lemma TransferWritten(job: Job, c: Command, before: Disk, start: nat, i: nat, out: PatchOutput, st: Outcome)
      requires i < |job.p.cmds| && job.p.cmds[i] == c && IsTransfer(c)
      requires Interrupted(job, before, i, start, i) && out == PatchOutput(Want(job.p, job.img, i), true)
      requires Overlapping(c) ==> SourceHash(c) in before.stash
      requires stash == before.stash && lastCommand == before.last && |dev| == |before.dev|
      requires forall b :: 0 <= b < |dev| && b !in Targets(c) ==> dev[b] == before.dev[b]
      requires |out.blocks| == Total(c.tgt) ==>
                 && st != Failed
                 && (st == Ok ==> WrittenTo(before.dev, dev, Targets(c), out.blocks))
      ensures st != Failed && Interrupted(job, State(), i, start, i)
      ensures st == Ok ==> Done(job, dev, i)
    {
      hide Interrupted, Want, Put, Good;
      InterruptedIsHonest(job, before, i, start, i);
      InterruptedWrite(job, before, State(), i, start, i);
      TransferFacts(job, i);
      TargetLength(job.p, job.img, i);
      if st == Ok {
        GatherPut(before.dev, Targets(c), out.blocks);
      }
    }

    lemma BackupDropped(job: Job, before: Disk, start: nat, i: nat)
      requires i < |job.p.cmds| && Overlapping(job.p.cmds[i]) && start <= i
      requires Running(job, before, i + 1, start, i + 1) && Clean(job, before, i + 1)
      requires dev == before.dev && lastCommand == before.last && frontier == i + 1
      requires stash == before.stash || stash == before.stash - {SourceHash(job.p.cmds[i])}
      ensures Running(job, State(), frontier, start, i + 1)
      ensures Interrupted(job, State(), frontier, start, i)
    {
      hide Core, Clean, Filled;
      RemoveBackup(job, before, i + 1, start, i);
      if stash == before.stash {
        assert State() == before;
      } else {
        assert State() == before.(stash := before.stash - {SourceHash(job.p.cmds[i])});
      }
      RunningWithin(job, State(), frontier, start, i);
    }

    /** No stash with the hash can be loaded. */
    ghost predicate NotStashed(hash: Digest)
      requires OriginsWithin(stashMap, |dev|)
      reads this
    {
      Checked(Lookup(State(), stashMap, canwrite, hash), hash).None?
    }

    /** The transfer is neither done nor can its source be loaded. */
    ghost predicate Lost(c: Command)
      requires OriginsWithin(stashMap, |dev|) && WellFormedCommand(c, |dev|)
      reads this
    {
      NotThere(dev, c) && Packed(c.source) && (Overlapping(c) ==> NotStashed(SourceHash(c)))
    }

    /** PerformCommandMove and PerformCommandDiff. */
    method PerformCommandTransfer(c: Command, cmdindex: nat, ghost job: Job, ghost start: nat) returns (st: Outcome)
      requires Valid() && IsTransfer(c) && WellFormedCommand(c, |dev|) && freestash == None
      modifies this`dev, this`stash, this`lastCommand, this`buffer, this`freestash, this`isunresumable,
               this`targetVerified, this`frontier, this`unsaved, this`cut
      ensures cut == (old(cut) || st == Stopped)
      ensures Valid() && |dev| == |old(dev)| && (st == Ok ==> freestash == None)
      ensures isunresumable ==> old(isunresumable) || st == Failed
      ensures !canwrite ==> DryRunFrame(old(State()), State()) && freestash == None && frontier == old(frontier)
      ensures SameOutside(old(dev), dev, Targets(c))
      ensures if canwrite then FewerBut(stash, old(stash), SourceHash(c)) else Fewer(stash, old(stash))
      ensures old(Lost(c)) ==> st != Ok
      ensures !canwrite && st == Failed ==> isunresumable && NotThere(old(dev), c)
      ensures !canwrite && st == Ok ==> TargetMatches(c, targetVerified)
      ensures old(CheckAt(job, c, cmdindex)) ==> State() == old(State()) && CheckAfter(job, cmdindex, st)
      ensures old(UpdateAt(job, c, start, cmdindex)) ==> UpdateAfter(job, start, cmdindex, st)
    {
      hide UpdateAfter, CheckAfter, LoadedForUpdate, WellFormedCommand, Interrupted, Core, OriginsKept, OriginsWithin,
        SourceHash, TargetHash, Overlapping, Gather, KeepsMatching, UsedBefore, Running;
      ghost var updating := UpdateAt(job, c, start, cmdindex);
      ghost var checking := CheckAt(job, c, cmdindex);
      var load, overlap := LoadSrcTgtVersion3(c, cmdindex, job, start);
      if load == Interruption || load == Unavailable {
        if updating { StoppedInUpdate(job, start, cmdindex); }
        if checking { StoppedInCheck(job, c, cmdindex); }
        return if load == Interruption then Stopped else Failed;
      }
      targetVerified := load == AlreadyDone;
      var out := if c.Move? then PatchOutput(buffer, true) else c.patch(buffer);
      if updating { LoadedTransfer(job, c, start, cmdindex, load, out); }
      if checking { PassedInCheck(job, c, cmdindex); }
      st := FinishTransfer(c, load, out, cmdindex, job, start);
    }

    ghost predicate TargetMatches(c: Command, matches: bool)
      requires IsTransfer(c)
      reads this
    {
      InBounds(Targets(c), |dev|) && (matches <==> Digest(Gather(dev, Targets(c))) == TargetHash(c))
    }

    lemma StoppedInUpdate(job: Job, start: nat, i: nat)
      requires Valid() && canwrite && start <= i < |job.p.cmds| && Interrupted(job, State(), frontier, start, i)
      ensures UpdateAfter(job, start, i, Stopped)
    {
    }

    lemma StoppedInCheck(job: Job, c: Command, i: nat)
      requires Valid() && CheckAt(job, c, i)
      ensures CheckAfter(job, i, Stopped)
    {
    }

    lemma PassedInCheck(job: Job, c: Command, i: nat)
      requires Valid() && CheckAt(job, c, i) && !c.Stash?
      ensures CheckAfter(job, i, Ok)
    {
      hide Core;
      CoreParts(job, State(), frontier);
      OriginsPassCommand(job, State(), stashMap, frontier, i);
    }

    lemma LoadedTransfer(job: Job, c: Command, start: nat, i: nat, load: LoadStatus, out: PatchOutput)
      requires Valid() && canwrite && start <= i < |job.p.cmds| && job.p.cmds[i] == c && IsTransfer(c)
      requires Interrupted(job, State(), frontier, start, i)
      requires streamPos == UsedBefore(job.p, i) - UsedBefore(job.p, start)
      requires load == Ready || load == AlreadyDone
      requires InBounds(Targets(c), |dev|)
      requires load == AlreadyDone ==> Digest(Gather(dev, Targets(c))) == TargetHash(c) && freestash == None
      requires load == Ready ==>
                 && frontier == i && Digest(buffer) == SourceHash(c)
                 && out == (if c.Move? then PatchOutput(buffer, true) else c.patch(buffer))
                 && (Overlapping(c) ==> SourceHash(c) in stash)
                 && (freestash.Some? ==> Overlapping(c) && freestash.value == SourceHash(c))
      ensures LoadedForUpdate(job, c, start, i, load, out)
    {
      hide Interrupted, Good, Done;
      InterruptedIsHonest(job, State(), frontier, start, i);
      DoneIsRecognised(job, dev, i);
      TransferFacts(job, i);
    }

    method PerformCommandStash(c: Command, cmdindex: nat, ghost job: Job, ghost start: nat) returns (st: Outcome)
      requires Valid() && c.Stash? && WellFormedCommand(c, |dev|) && freestash == None
      modifies this`stash, this`lastCommand, this`buffer, this`stashMap, this`frontier, this`unsaved, this`cut
      ensures cut == (old(cut) || st == Stopped)
      ensures Valid() && st != Failed
      ensures FewerBut(stash, old(stash), c.id)
      ensures stashMap == old(stashMap) || stashMap == old(stashMap)[c.id := c.src]
      ensures !canwrite ==> DryRunFrame(old(State()), State()) && frontier == old(frontier)
      ensures old(CheckAt(job, c, cmdindex)) ==> State() == old(State()) && CheckAfter(job, cmdindex, st)
      ensures old(UpdateAt(job, c, start, cmdindex)) ==> UpdateAfter(job, start, cmdindex, st)
    {
      hide Core, Running, Interrupted, OriginsKept, Lookup, WellFormed, Good, Expand, Honest, Mismatched, Gather, Total,
        OriginsWithin, UsedBefore, StashingAt;
      ghost var before := State();
      ghost var updating := UpdateAt(job, c, start, cmdindex);
      ghost var checking := CheckAt(job, c, cmdindex);
      if updating || checking { KnownCommand(job, c, start, cmdindex); }
      if updating { RunningIsInterrupted(job, before, frontier, start, cmdindex); }
      if checking { StashInCheck(job, c, cmdindex); }
      if updating { StashInUpdate(job, c, start, cmdindex); }
      var l, content := LoadStash(c.id, true);
      if l == Stopped { return Stopped; }
      if content.Some? {
        // The file is there; the source may have been overwritten in a previous attempt.
        buffer := content.value;
        if updating { frontier := PlainCompleted(job, before, start, cmdindex); }
        return Ok;
      }
      st := StashSource(c, cmdindex, job, start);
    }

    /** The rest of a stash command when no good file was found: stash the source. */
    method StashSource(c: Command, cmdindex: nat, ghost job: Job, ghost start: nat) returns (st: Outcome)
      requires Valid() && c.Stash? && WellFormedCommand(c, |dev|) && freestash == None
      modifies this`stash, this`lastCommand, this`buffer, this`stashMap, this`frontier, this`unsaved, this`cut
      ensures cut == (old(cut) || st == Stopped)
      ensures Valid() && st != Failed
      ensures FewerBut(stash, old(stash), c.id)
      ensures stashMap == old(stashMap)[c.id := c.src]
      ensures InBounds(Reads(c), |dev|)
      ensures st == Ok && canwrite && Digest(Gather(dev, Reads(c))) == c.id ==>
                stash == old(stash)[c.id := Gather(dev, Reads(c))]
                && (!unsaved ==> lastCommand == Some(cmdindex as int))
      ensures Digest(Gather(dev, Reads(c))) != c.id ==>
                st == Ok && stash == old(stash) && lastCommand == old(lastCommand)
      ensures !canwrite ==> State() == old(State()) && frontier == old(frontier)
      ensures old(CheckAt(job, c, cmdindex)) && c.id !in old(stash) ==> CheckAfter(job, cmdindex, st)
      ensures old(UpdateAt(job, c, start, cmdindex)) && c.id !in old(stash) ==> UpdateAfter(job, start, cmdindex, st)
    {
      hide Core, Running, Interrupted, OriginsKept, Lookup, WellFormed, Good, Expand, Honest;
      ghost var before := State();
      ghost var updating := UpdateAt(job, c, start, cmdindex) && c.id !in stash;
      if updating { KnownCommand(job, c, start, cmdindex); }
      if updating { RunningIsInterrupted(job, before, frontier, start, cmdindex); }
      if CheckAt(job, c, cmdindex) { StashInCheck(job, c, cmdindex); }
      if updating { StashInUpdate(job, c, start, cmdindex); }
      CommandBounds(c, |dev|);
      buffer := Gather(dev, Expand(c.src));
      stashMap := stashMap[c.id := c.src];
      if Digest(buffer) != c.id {
        // Needed later only if the command that uses it has not completed yet.
        if updating { frontier := PlainCompleted(job, before, start, cmdindex); }
        return Ok;
      }
      if !canwrite { return Ok; }
      st := SaveStash(c.id, cmdindex, job, start);
    }

    /** Write the stash file, then save the index. */
    method SaveStash(id: Digest, cmdindex: nat, ghost job: Job, ghost start: nat) returns (st: Outcome)
      requires Valid() && canwrite && Digest(buffer) == id && freestash == None
      modifies this`stash, this`lastCommand, this`frontier, this`unsaved, this`cut
      ensures cut == (old(cut) || st == Stopped)
      ensures Valid() && st != Failed
      ensures FewerBut(stash, old(stash), id)
      ensures st == Ok ==> stash == old(stash)[id := buffer] && (!unsaved ==> lastCommand == Some(cmdindex as int))
      ensures old(StashingAt(job, id, start, cmdindex)) ==> UpdateAfter(job, start, cmdindex, st)
    {
      hide Core, Running, Interrupted, OriginsWithin, Good;
      ghost var before := State();
      ghost var updating := StashingAt(job, id, start, cmdindex);
      var w, _ := WriteStash(id, buffer, false);
      if updating && stash != before.stash {
        InterruptedAddStash(job, before, frontier, start, cmdindex, id);
        assert State() == before.(stash := before.stash[id := id.content]);
      }
      if w == Stopped { return Stopped; }
      ghost var stashed := State();
      if updating { frontier := PlainCompleted(job, stashed, start, cmdindex); }
      var alive := UpdateLastCommandIndex(cmdindex);
      if updating {
        if lastCommand != stashed.last {
          RunningSaveIndex(job, stashed, frontier, start, cmdindex);
          assert State() == stashed.(last := Some(cmdindex as int));
        }
        RunningWithin(job, State(), frontier, start, cmdindex);
      }
      return if alive then Ok else Stopped;
    }

    ghost predicate StashingAt(job: Job, id: Digest, start: nat, i: nat)
      reads this
    {
      && start <= i < |job.p.cmds| && job.p.cmds[i].Stash? && job.p.cmds[i].id == id
      && Interrupted(job, State(), frontier, start, i)
      && streamPos == UsedBefore(job.p, i) - UsedBefore(job.p, start)
    }

    lemma StashInCheck(job: Job, c: Command, i: nat)
      requires Valid() && CheckAt(job, c, i) && c.Stash?
      ensures Lookup(State(), stashMap, canwrite, c.id) == if c.id in stash then Some(c.id.content) else None
      ensures c.id in stash ==> OriginsKept(job, State(), stashMap, frontier, i + 1)
      ensures c.id !in stash ==> OriginsKept(job, State(), stashMap[c.id := c.src], frontier, i + 1)
    {
      hide Good, TransfersDone, Untouched, StashesKept, Intact, Backed;
      OriginIsNew(job, State(), stashMap, frontier, i);
      OriginsPassStash(job, State(), stashMap, frontier, i);
    }

    lemma StashInUpdate(job: Job, c: Command, start: nat, i: nat)
      requires Valid() && UpdateAt(job, c, start, i) && c.Stash? && WellFormedCommand(c, |dev|)
      ensures Lookup(State(), stashMap, canwrite, c.id) == if c.id in stash then Some(c.id.content) else None
      ensures InBounds(Reads(c), |dev|)
      ensures i == frontier ==> Digest(Gather(dev, Reads(c))) == c.id
    {
      hide Good, TransfersDone, Untouched, StashesKept, Intact, Backed, Filled;
      CommandBounds(c, |dev|);
      if i == frontier { StashSourceMatches(job, State(), frontier); }
    }

    /** A command that writes no device blocks is complete. */
    ghost method PlainCompleted(job: Job, d: Disk, start: nat, i: nat) returns (k: nat)
      requires Interrupted(job, d, frontier, start, i) && i < |job.p.cmds| && start <= i
      requires !IsTransfer(job.p.cmds[i]) && !IsFill(job.p.cmds[i])
      requires i == frontier && job.p.cmds[i].Stash? ==> job.p.cmds[i].id in d.stash
      ensures Running(job, d, k, start, i + 1) && i < k
      ensures UsedBefore(job.p, i + 1) == UsedBefore(job.p, i)
    {
      hide Good, Core, Filled;
      k := CommandCompleted(job, d, frontier, start, i);
    }

    method PerformCommandFree(c: Command, cmdindex: nat, ghost job: Job, ghost start: nat) returns (st: Outcome)
      requires Valid() && c.Free? && freestash == None
      modifies this`stash, this`stashMap, this`frontier, this`cut
      ensures cut == (old(cut) || st == Stopped)
      ensures Valid() && st != Failed
      ensures !canwrite && !createdstash ==> DryRunFrame(old(State()), State())
      ensures !canwrite ==> frontier == old(frontier)
      ensures Fewer(stash, old(stash)) && stashMap == old(stashMap) - {c.id}
      ensures st == Ok && (canwrite || createdstash) ==> stash == old(stash) - {c.id}
      ensures old(CheckAt(job, c, cmdindex)) ==> State() == old(State()) && CheckAfter(job, cmdindex, st)
      ensures old(UpdateAt(job, c, start, cmdindex)) ==> UpdateAfter(job, start, cmdindex, st)
    {
      hide Core, Running, Interrupted, OriginsKept, WellFormed, Good;
      ghost var before := State();
      ghost var updating := UpdateAt(job, c, start, cmdindex);
      ghost var checking := CheckAt(job, c, cmdindex);
      if updating || checking { KnownCommand(job, c, start, cmdindex); }
      if checking { OriginsPassFree(job, before, stashMap, frontier, cmdindex); }
      stashMap := stashMap - {c.id};
      if createdstash || canwrite {
        var alive := DeleteFile(c.id);
        if updating {
          RunningIsInterrupted(job, before, frontier, start, cmdindex);
          if stash != before.stash {
            InterruptedFree(job, before, frontier, start, cmdindex);
            assert State() == before.(stash := before.stash - {c.id});
          }
        }
        if checking { assert stash == map[]; }
        if !alive { return Stopped; }
        if updating { frontier := PlainCompleted(job, State(), start, cmdindex); }
      }
      return Ok;
    }

    /** PerformCommandZero in an update. */
    method PerformCommandZero(c: Command, cmdindex: nat, ghost job: Job, ghost start: nat) returns (st: Outcome)
      requires Valid() && canwrite && c.Zero? && WellFormedCommand(c, |dev|) && freestash == None
      modifies this`dev, this`frontier, this`cut
      ensures cut == (old(cut) || st == Stopped)
      ensures Valid() && st != Failed && |dev| == |old(dev)|
      ensures forall b :: 0 <= b < |dev| && b !in Expand(c.tgt) ==> dev[b] == old(dev)[b]
      ensures st == Ok ==> WrittenTo(old(dev), dev, Expand(c.tgt), Blank(Total(c.tgt)))
      ensures st == Ok ==> forall b :: 0 <= b < |dev| && b in Expand(c.tgt) ==> AllZero(dev[b])
      ensures old(UpdateAt(job, c, start, cmdindex)) ==> UpdateAfter(job, start, cmdindex, st)
    {
      hide Core, Running, Interrupted, Filled, Holds, Fill, WellFormed, Good;
      ghost var before := State();
      ghost var updating := UpdateAt(job, c, start, cmdindex);
      if updating { ZeroContent(job, c, start, cmdindex); }
      ghost var dev0 := dev;
      st := WriteBlocks(c.tgt, Blank(Total(c.tgt)));
      if st == Ok { ZeroWritten(dev0, Expand(c.tgt), Total(c.tgt)); }
      if updating { frontier := FillCompleted(job, c, before, start, cmdindex, Blank(Total(c.tgt)), st); }
    }

    lemma ZeroContent(job: Job, c: Command, start: nat, i: nat)
      requires UpdateAt(job, c, start, i) && c.Zero?
      ensures WellFormed(job.p, |job.img|) && start <= |job.p.cmds|
      ensures Fill(job, start, i) == Blank(Total(c.tgt)) && UsedBefore(job.p, i + 1) == UsedBefore(job.p, i)
    {
    }

    /** PerformCommandNew in an update: the receiver writes the next slice of the stream. */
    method PerformCommandNew(c: Command, stream: seq<Block>, cmdindex: nat, ghost job: Job, ghost start: nat)
      returns (st: Outcome)
      requires Valid() && canwrite && c.New? && WellFormedCommand(c, |dev|) && freestash == None
      modifies this`dev, this`streamPos, this`frontier, this`cut
      ensures cut == (old(cut) || st == Stopped)
      ensures Valid() && |dev| == |old(dev)|
      ensures forall b :: 0 <= b < |dev| && b !in Expand(c.tgt) ==> dev[b] == old(dev)[b]
      ensures st == Ok ==>
                && streamPos == old(streamPos) + Total(c.tgt) <= |stream|
                && WrittenTo(old(dev), dev, Expand(c.tgt), stream[old(streamPos)..streamPos])
      ensures old(streamPos) + Total(c.tgt) <= |stream| ==> st != Failed
      ensures old(UpdateAt(job, c, start, cmdindex)) && stream == job.p.stream ==> UpdateAfter(job, start, cmdindex, st)
    {
      hide Core, Running, Interrupted, Filled, Holds, Fill, WellFormed, Good;
      ghost var before := State();
      ghost var updating := UpdateAt(job, c, start, cmdindex) && stream == job.p.stream;
      if updating { NewContent(job, c, start, cmdindex); }
      var n := Total(c.tgt);
      if streamPos + n > |stream| {
        // The receiver runs out of data.
        var alive := WriteSome(c.tgt);
        return if alive then Failed else Stopped;
      }
      var data := stream[streamPos..streamPos + n];
      st := WriteBlocks(c.tgt, data);
      streamPos := streamPos + n;
      if updating { frontier := FillCompleted(job, c, before, start, cmdindex, data, st); }
    }

    lemma NewContent(job: Job, c: Command, start: nat, i: nat)
      requires UpdateAt(job, c, start, i) && c.New?
      ensures WellFormed(job.p, |job.img|) && start <= |job.p.cmds|
      ensures streamPos + Total(c.tgt) <= |job.p.stream|
      ensures Fill(job, start, i) == job.p.stream[streamPos..streamPos + Total(c.tgt)]
      ensures UsedBefore(job.p, i + 1) == UsedBefore(job.p, i) + Total(c.tgt)
    {
      hide Core, Filled, Fill, Good, Total, Interrupted;
      KnownCommand(job, c, start, i);
      StreamSuffices(job, start, i);
    }

    ghost method FillCompleted(job: Job, c: Command, before: Disk, start: nat, i: nat, data: seq<Block>, st: Outcome)
      returns (k: nat)
      requires WellFormed(job.p, |job.img|) && start <= i < |job.p.cmds| && job.p.cmds[i] == c && IsFill(c)
      requires Running(job, before, frontier, start, i) && data == Fill(job, start, i)
      requires stash == before.stash && lastCommand == before.last && |dev| == |before.dev|
      requires forall b :: 0 <= b < |dev| && b !in Expand(c.tgt) ==> dev[b] == before.dev[b]
      requires st != Failed && (st == Ok ==> WrittenTo(before.dev, dev, Expand(c.tgt), data))
      ensures st == Ok ==> Running(job, State(), k, start, i + 1)
      ensures st == Stopped ==> Interrupted(job, State(), k, start, i)
    {
      hide Core, Running, Interrupted, Filled, Holds, Fill, WellFormed, Good, Put, Done;
      RunningIsInterrupted(job, before, frontier, start, i);
      InterruptedIsHonest(job, before, frontier, start, i);
      InterruptedWrite(job, before, State(), frontier, start, i);
      k := frontier;
      if st == Ok {
        FillWritten(job, before.dev, start, i, data);
        k := CommandCompleted(job, State(), frontier, start, i);
      }
    }

    // ---------- whole runs ----------

    /** Remove the stash directory file by file. */
    method DeleteStash() returns (alive: bool)
      requires stash != map[] ==> stashDir
      modifies this`stash, this`stashDir, this`cut
      ensures cut == (old(cut) || !alive)
      ensures stash != map[] ==> stashDir
      ensures stash.Keys <= old(stash.Keys) && Fewer(stash, old(stash)) && (Honest(old(stash)) ==> Honest(stash))
      ensures alive ==> stash == map[] && !stashDir
    {
      alive := true;
      while stash != map[]
        invariant stash.Keys <= old(stash.Keys) && Fewer(stash, old(stash)) && (Honest(old(stash)) ==> Honest(stash))
        invariant (stash != map[] ==> stashDir) && alive && cut == old(cut)
        decreases stash.Keys
      {
        var id: Digest :| id in stash;
        ghost var before := stash;
        alive := DeleteFile(id);
        if !alive { return; }
        assert id in before.Keys && stash.Keys == before.Keys - {id};
      }
      alive := Proceed();
      if alive { stashDir := false; }
    }

    method DeleteLastCommandFile() returns (alive: bool)
      modifies this`lastCommand, this`cut
      ensures cut == (old(cut) || !alive)
      ensures lastCommand == old(lastCommand) || lastCommand == None
      ensures alive ==> lastCommand == None
    {
      alive := Proceed();
      if alive {
        lastCommand := None;
        alive := Proceed();
      }
    }

    /** CreateStash: use the directory that is there, or make one. */
    method CreateStash() returns (alive: bool)
      modifies this`stashDir, this`createdstash, this`cut
      ensures cut == (old(cut) || !alive)
      ensures createdstash == !old(stashDir)
      ensures old(stashDir) ==> stashDir
      ensures alive ==> stashDir
    {
      createdstash := !stashDir;
      alive := true;
      if !stashDir {
        alive := Proceed();
        if alive { stashDir := true; }
      }
    }

    /** Between two commands of a dry run. */
    ghost predicate Checking(job: Job, i: nat, saved: int)
      reads this
    {
      && !canwrite && freestash == None && (createdstash ==> stash == map[])
      && Resumable(job, State(), frontier) && i <= |job.p.cmds|
      && OriginsKept(job, State(), stashMap, frontier, i)
      && lastCommand == (if saved == -1 then None else Some(saved))
      && ConfirmedUpTo(job, dev, saved, i)
    }

    /** What an interrupted dry run leaves behind. */
    ghost predicate CheckedSoFar(job: Job)
      reads this
    {
      Resumable(job, State(), frontier) && (createdstash ==> stash == map[])
    }

    lemma CheckingCommand(job: Job, c: Command, i: nat, saved: int)
      requires Checking(job, i, saved) && i < |job.p.cmds| && job.p.cmds[i] == c
      ensures CheckAt(job, c, i) && CheckedSoFar(job)
    {
      hide Core, OriginsKept, ConfirmedUpTo;
    }

    lemma CheckedCommand(job: Job, c: Command, i: nat, saved: int, before: Disk, st: Outcome)
      requires Resumable(job, before, frontier) && i < |job.p.cmds| && job.p.cmds[i] == c && State() == before
      requires before.last == (if saved == -1 then None else Some(saved))
      requires ConfirmedUpTo(job, dev, saved, i)
      requires CheckAfter(job, i, st)
      ensures CheckedSoFar(job) && st != Failed
      ensures st == Ok && (i <= saved && IsTransfer(c) ==> TargetMatches(c, true)) ==> Checking(job, i + 1, saved)
      ensures st == Ok ==> Core(job, State(), frontier) && OriginsKept(job, State(), stashMap, frontier, i + 1)
    {
      hide Core, OriginsKept, ConfirmedUpTo, Settled, Done;
      ResumableParts(job, before, frontier);
      if IsTransfer(c) { DoneIsRecognised(job, dev, i); }
      if st == Ok && (i <= saved && IsTransfer(c) ==> TargetMatches(c, true)) { ConfirmStep(job, dev, saved, i); }
    }

    lemma IndexDeleted(job: Job, before: Disk)
      requires Resumable(job, before, frontier) && dev == before.dev && stash == before.stash
      requires lastCommand == before.last || lastCommand == None
      requires createdstash ==> stash == map[]
      ensures CheckedSoFar(job)
    {
      hide Core, Settled, IndexSane;
      if lastCommand == None {
        IndexDropped(job, before, frontier);
        assert State() == before.(last := None);
      } else {
        assert State() == before;
      }
    }

    /** Without a saved index there is nothing to confirm. */
    lemma CheckingRestarts(job: Job, i: nat, l: Option<int>)
      requires CheckedSoFar(job) && lastCommand == None && !canwrite && freestash == None
      requires Good(job) && |dev| == |job.img| && i <= |job.p.cmds|
      requires OriginsKept(job, Disk(dev, stash, l), stashMap, frontier, i)
      ensures Checking(job, i, -1)
    {
      hide Core, Settled, IndexSane, Good;
      OriginsIgnoreIndex(job, dev, stash, l, None, stashMap, frontier, i);
    }

    lemma CheckingStarts(job: Job, saved: int)
      requires Resumable(job, State(), frontier) && !canwrite && freestash == None && stashMap == map[]
      requires createdstash ==> stash == map[]
      requires saved == if lastCommand.Some? then lastCommand.value else -1
      ensures Checking(job, 0, saved)
    {
      hide Core, Settled;
      ResumableParts(job, State(), frontier);
    }

    lemma CheckingSkips(job: Job, c: Command, i: nat, saved: int)
      requires Checking(job, i, saved) && i < |job.p.cmds| && job.p.cmds[i] == c && IsFill(c)
      ensures Checking(job, i + 1, saved)
    {
      hide Core, Settled, IndexSane, ConfirmedUpTo, OriginsKept;
      ResumableParts(job, State(), frontier);
      OriginsPassCommand(job, State(), stashMap, frontier, i);
      ConfirmStep(job, dev, saved, i);
    }

    /** One command of a dry run, and the check of the saved index. */
    method CheckCommand(c: Command, i: nat, saved0: int, ghost job: Job) returns (st: Outcome, saved: int)
      requires Valid() && !canwrite && freestash == None && WellFormedCommand(c, |dev|) && !IsFill(c) && !isunresumable
      modifies this`dev, this`stash, this`lastCommand, this`stashMap, this`buffer, this`freestash, this`isunresumable,
               this`targetVerified, this`frontier, this`unsaved, this`cut
      ensures cut == (old(cut) || st == Stopped)
      ensures Valid() && freestash == None && dev == old(dev) && (isunresumable <==> st == Failed)
      ensures lastCommand == old(lastCommand) || lastCommand == None
      ensures !createdstash ==> KeepsMatching(old(stash), stash)
      ensures Fewer(stash, old(stash))
      ensures forall id :: id in stashMap ==> id in old(stashMap) || (c.Stash? && c.id == id)
      ensures IsTransfer(c) && old(Lost(c)) ==> st != Ok
      ensures st == Failed ==> NotThere(old(dev), c)
      ensures old(Checking(job, i, saved0)) && i < |job.p.cmds| && job.p.cmds[i] == c ==>
                && st != Failed && stash == old(stash) && frontier == old(frontier) && CheckedSoFar(job)
                && (st == Ok ==> Checking(job, i + 1, saved))
    {
      hide Checking, CheckAfter, CheckedSoFar, Resumable, Core, OriginsKept, ConfirmedUpTo, WellFormed, OriginsWithin,
        WellFormedCommand, UpdateAt, UpdateAfter, TargetMatches, Good;
      ghost var before := State();
      ghost var checking := Checking(job, i, saved0) && i < |job.p.cmds| && job.p.cmds[i] == c;
      if checking {
        CheckingCommand(job, c, i, saved0);
        CheckingParts(job, i, saved0);
      }
      saved := saved0;
      targetVerified := false;
      if IsTransfer(c) {
        st := PerformCommandTransfer(c, i, job, 0);
      } else if c.Stash? {
        st := PerformCommandStash(c, i, job, 0);
      } else {
        st := PerformCommandFree(c, i, job, 0);
      }
      if checking { CheckedCommand(job, c, i, saved0, before, st); }
      if st == Ok && saved != -1 && i <= saved && IsTransfer(c) && !targetVerified {
        // The update has to resume from the first command.
        saved := -1;
        var alive := DeleteLastCommandFile();
        if checking {
          IndexDeleted(job, before);
          if lastCommand == None { CheckingRestarts(job, i + 1, before.last); }
        }
        if !alive { st := Stopped; }
      }
    }

    lemma CheckingParts(job: Job, i: nat, saved: int)
      requires Checking(job, i, saved)
      ensures Resumable(job, State(), frontier) && Good(job) && |dev| == |job.img| && i <= |job.p.cmds|
      ensures lastCommand == (if saved == -1 then None else Some(saved))
      ensures ConfirmedUpTo(job, dev, saved, i) && saved >= -1
      ensures createdstash ==> stash == map[]
    {
      hide Core, Settled, OriginsKept, ConfirmedUpTo;
      ResumableParts(job, State(), frontier);
    }

    lemma HopelessIsLost(p: Package, stash0: map<Digest, seq<Block>>, i: nat)
      requires Valid() && WellFormed(p, |dev|) && i < |p.cmds| && Fewer(stash, stash0)
      requires !canwrite ==> OriginsFrom(p, stashMap, i)
      requires Hopeless(p, dev, stash0, i)
      ensures WellFormedCommand(p.cmds[i], |dev|) && IsTransfer(p.cmds[i]) && Lost(p.cmds[i])
    {
      hide Gather;
      WellFormedCommandAt(p, |dev|, i);
    }

    /** One command of a dry run, in its list. */
    method CheckNext(p: Package, i: nat, saved0: int, ghost job: Job, ghost stash0: map<Digest, seq<Block>>,
                     ghost known: bool)
      returns (st: Outcome, saved: int)
      requires WellFormed(p, |dev|) && i < |p.cmds| && !IsFill(p.cmds[i]) && Fewer(stash, stash0)
      requires Valid() && !canwrite && freestash == None && !isunresumable
      requires known ==> OriginsFrom(p, stashMap, i) && NoneHopeless(p, dev, stash0, i)
      modifies this`dev, this`stash, this`lastCommand, this`stashMap, this`buffer, this`freestash, this`isunresumable,
               this`targetVerified, this`frontier, this`unsaved, this`cut
      ensures cut == (old(cut) || st == Stopped)
      ensures Valid() && freestash == None && dev == old(dev) && (isunresumable <==> st == Failed)
      ensures lastCommand == old(lastCommand) || lastCommand == None
      ensures !createdstash ==> KeepsMatching(old(stash), stash)
      ensures Fewer(stash, old(stash))
      ensures known && st == Ok ==> OriginsFrom(p, stashMap, i + 1) && NoneHopeless(p, dev, stash0, i + 1)
      ensures st == Failed ==> SomeFails(p, dev)
      ensures old(Checking(job, i, saved0)) && job.p == p ==>
                && st != Failed && stash == old(stash) && frontier == old(frontier) && CheckedSoFar(job)
                && (st == Ok ==> Checking(job, i + 1, saved))
    {
      hide Checking, CheckedSoFar, WellFormed, KeepsMatching, OriginsWithin, WellFormedCommand, Lost, Hopeless,
        NotThere;
      ghost var origin := stashMap;
      var c := p.cmds[i];
      WellFormedCommandAt(p, |dev|, i);
      if known && Hopeless(p, dev, stash0, i) { HopelessIsLost(p, stash0, i); }
      st, saved := CheckCommand(c, i, saved0, job);
      if known { OriginsNext(p, origin, stashMap, i); }
      if st == Failed { assert FailsAt(p, dev, i); }
    }

    lemma NothingYet(p: Package, stash0: map<Digest, seq<Block>>)
      requires WellFormed(p, |dev|) && stashMap == map[]
      ensures OriginsFrom(p, stashMap, 0) && NoneHopeless(p, dev, stash0, 0)
    {
    }

    lemma FillIsFine(p: Package, stash0: map<Digest, seq<Block>>, i: nat)
      requires WellFormed(p, |dev|) && i < |p.cmds| && IsFill(p.cmds[i])
      requires OriginsFrom(p, stashMap, i) && NoneHopeless(p, dev, stash0, i)
      ensures OriginsFrom(p, stashMap, i + 1) && NoneHopeless(p, dev, stash0, i + 1)
    {
      OriginsNext(p, stashMap, stashMap, i);
    }

    /** The command loop of a dry run. */
    method CheckCommands(p: Package, saved0: int, ghost job: Job) returns (st: Outcome)
      requires WellFormed(p, |dev|) && Valid() && !canwrite && freestash == None && !isunresumable
      modifies this`dev, this`stash, this`lastCommand, this`stashMap, this`buffer, this`freestash, this`isunresumable,
               this`targetVerified, this`frontier, this`unsaved, this`cut
      ensures cut == (old(cut) || st == Stopped)
      ensures Valid() && dev == old(dev) && (isunresumable <==> st == Failed)
      ensures lastCommand == old(lastCommand) || lastCommand == None
      ensures !createdstash ==> KeepsMatching(old(stash), stash)
      ensures Fewer(stash, old(stash))
      ensures st == Ok && old(stashMap) == map[] ==>
                NoneHopeless(p, old(dev), old(stash), |p.cmds|)
      ensures st == Failed ==> SomeFails(p, old(dev))
      ensures old(Checking(job, 0, saved0)) && job.p == p ==>
                && st != Failed && stash == old(stash) && frontier == old(frontier) && Resumable(job, State(), frontier)
                && (st == Ok ==> Confirmed(job, State()))
    {
      hide Checking, CheckedSoFar, Resumable, WellFormed, Good, Confirmed, KeepsMatching, OriginsWithin,
        WellFormedCommand, OriginsFrom, Fewer, NoneHopeless, SomeFails;
      ghost var stash1 := stash;
      ghost var checking := Checking(job, 0, saved0) && job.p == p;
      KeepsMatchingItself(stash);
      FewerItself(stash);
      ghost var known := stashMap == map[];
      if known { NothingYet(p, stash1); }
      if checking { CheckingParts(job, 0, saved0); }
      st := Ok;
      var i, saved := 0, saved0;
      while i < |p.cmds| && st == Ok
        invariant i <= |p.cmds| && Valid() && dev == old(dev) && freestash == None && (isunresumable <==> st == Failed)
        invariant (lastCommand == old(lastCommand) || lastCommand == None) && cut == (old(cut) || st == Stopped)
        invariant !createdstash ==> KeepsMatching(stash1, stash)
        invariant Fewer(stash, stash1) && (known && st == Ok ==> OriginsFrom(p, stashMap, i))
        invariant known && st == Ok ==> NoneHopeless(p, dev, stash1, i)
        invariant st == Failed ==> SomeFails(p, old(dev))
        invariant checking ==>
                    st != Failed && stash == stash1 && frontier == old(frontier) && Resumable(job, State(), frontier)
        invariant checking && st == Ok ==> Checking(job, i, saved)
      {
        var c := p.cmds[i];
        if IsFill(c) {
          // Not part of the dry run.
          if checking { CheckingSkips(job, c, i, saved); }
          if known { FillIsFine(p, stash1, i); }
        } else {
          ghost var stash0 := stash;
          st, saved := CheckNext(p, i, saved, job, stash1, known);
          FewerTransitive(stash1, stash0, stash);
          if !createdstash { KeepsMatchingTransitive(stash1, stash0, stash); }
          if checking { CheckedIsResumable(job); }
        }
        i := i + 1;
      }
      if checking && st == Ok { CheckingEnds(job, saved); }
    }

    /** block_image_verify. */
    method Verify(p: Package, ghost job: Job) returns (st: Outcome)
      requires WellFormed(p, |dev|) && (stash != map[] ==> stashDir)
      modifies this
      ensures cut == (old(cut) || st == Stopped)
      ensures stash != map[] ==> stashDir
      ensures dev == old(dev) && OriginsWithin(stashMap, |dev|)
      ensures !isunresumable && old(stashDir) ==> KeepsMatching(old(stash), stash)
      ensures lastCommand == old(lastCommand) || lastCommand == None
      // On any device: it succeeds only if no transfer is hopeless, and gives up only at a transfer that
      // is not there.
      ensures st == Ok ==> NoneHopeless(p, dev, old(stash), |p.cmds|)
      ensures st == Failed ==> isunresumable && SomeFails(p, dev)
      ensures !cut && isunresumable ==> st == Failed && stash == map[] && lastCommand == None
      ensures old(Resumable(job, State(), frontier)) && job.p == p ==>
                && st != Failed && !isunresumable
                && stash == old(stash) && frontier == old(frontier) && Resumable(job, State(), frontier)
                && (st == Ok ==> Confirmed(job, State()))
      ensures old(Resumable(job, State(), frontier)) && job.p == p && !cut ==> st == Ok
    {
      hide Checking, Confirmed, Resumable, WellFormed, KeepsMatching, OriginsWithin, Honest;
      ghost var before := State();
      ghost var checking := Resumable(job, before, frontier) && job.p == p;
      KeepsMatchingItself(stash);
      var alive, saved := BeginVerify(job);
      if !alive { return Stopped; }
      st := CheckCommands(p, saved, job);
      if st == Stopped { return; }
      alive := EndVerify();
      if !alive { st := Stopped; }
      if checking && createdstash { NothingKept(before.stash, stash); }
    }

    /** Before the first command of a dry run. */
    method BeginVerify(ghost job: Job) returns (alive: bool, saved: int)
      requires stash != map[] ==> stashDir
      modifies this`stashDir, this`createdstash, this`canwrite, this`isunresumable, this`freestash, this`stashMap,
               this`targetVerified, this`isRetry, this`cut
      ensures cut == (old(cut) || !alive)
      ensures (stash != map[] ==> stashDir) && createdstash == !old(stashDir)
      ensures stashMap == map[]
      ensures OriginsWithin(stashMap, |dev|) && !canwrite && freestash == None && !isunresumable
      ensures alive ==> Valid()
      ensures alive && Resumable(job, State(), frontier) ==> Checking(job, 0, saved)
    {
      hide Checking, Resumable, OriginsWithin;
      canwrite, isunresumable, freestash, stashMap, targetVerified := false, false, None, map[], false;
      var retry: bool := *;
      isRetry := retry;
      NoOrigins(|dev|);
      alive := CreateStash();
      saved := if lastCommand.Some? then lastCommand.value else -1;
      if Resumable(job, State(), frontier) { CheckingStarts(job, saved); }
    }

    /** After a dry run: forget an update that cannot be resumed, and a directory the run has made. */
    method EndVerify() returns (alive: bool)
      requires stash != map[] ==> stashDir
      modifies this`lastCommand, this`stash, this`stashDir, this`cut
      ensures cut == (old(cut) || !alive)
      ensures stash != map[] ==> stashDir
      ensures alive && (isunresumable || createdstash) ==> stash == map[] && !stashDir
      ensures alive && isunresumable ==> lastCommand == None
      ensures Fewer(stash, old(stash)) && (lastCommand == old(lastCommand) || lastCommand == None)
      ensures !isunresumable ==> lastCommand == old(lastCommand) && (createdstash || stash == old(stash))
    {
      FewerItself(stash);
      alive := true;
      if isunresumable {
        alive := DeleteLastCommandFile();
        if !alive { return; }
      }
      if isunresumable || createdstash {
        alive := DeleteStash();
      }
    }

    lemma CheckedIsResumable(job: Job)
      requires CheckedSoFar(job)
      ensures Resumable(job, State(), frontier)
    {
    }

    lemma CheckingEnds(job: Job, saved: int)
      requires Checking(job, |job.p.cmds|, saved)
      ensures Confirmed(job, State())
    {
      hide Core, Settled, OriginsKept, ConfirmedUpTo;
      ResumableParts(job, State(), frontier);
    }

    /** Between two commands of an update. */
    ghost predicate UpdateHead(job: Job, start: nat, i: nat)
      reads this
    {
      && canwrite && freestash == None && start <= i <= |job.p.cmds|
      && Running(job, State(), frontier, start, i)
      && streamPos == UsedBefore(job.p, i) - UsedBefore(job.p, start)
    }

    /** Somewhere within an update. */
    ghost predicate Cut(job: Job, start: nat)
      reads this
    {
      exists i :: 0 <= i <= |job.p.cmds| && Interrupted(job, State(), frontier, start, i)
    }

    /** One command of an update. */
    method UpdateCommand(c: Command, stream: seq<Block>, i: nat, ghost job: Job, ghost start: nat) returns (st: Outcome)
      requires Valid() && canwrite && freestash == None && WellFormedCommand(c, |dev|) && !isunresumable
      modifies this`dev, this`stash, this`lastCommand, this`stashMap, this`buffer, this`freestash, this`isunresumable,
               this`targetVerified, this`streamPos, this`frontier, this`unsaved, this`cut
      ensures cut == (old(cut) || st == Stopped)
      ensures Valid() && |dev| == old(|dev|) && (isunresumable ==> st == Failed) && (st == Ok ==> freestash == None)
      ensures SameOutside(old(dev), dev, Targets(c)) && StashAfter(c, old(stash), stash)
      ensures IsTransfer(c) && old(Lost(c)) ==> st != Ok
      ensures old(UpdateHead(job, start, i)) && i < |job.p.cmds| && job.p.cmds[i] == c && stream == job.p.stream ==>
                && st != Failed && (st == Ok ==> UpdateHead(job, start, i + 1)) && (st == Stopped ==> Cut(job, start))
    {
      hide Running, Interrupted, WellFormedCommand, OriginsWithin, CheckAt, CheckAfter;
      ghost var updating := UpdateHead(job, start, i) && i < |job.p.cmds| && job.p.cmds[i] == c
        && stream == job.p.stream;
      assert updating ==> UpdateAt(job, c, start, i);
      targetVerified := false;
      assert updating ==> UpdateAt(job, c, start, i);
      if IsTransfer(c) {
        st := PerformCommandTransfer(c, i, job, start);
      } else if c.Stash? {
        st := PerformCommandStash(c, i, job, start);
      } else if c.Free? {
        st := PerformCommandFree(c, i, job, start);
      } else if c.Zero? {
        st := PerformCommandZero(c, i, job, start);
      } else {
        st := PerformCommandNew(c, stream, i, job, start);
      }
    }

    /** One command of an update, in its list. */
    method UpdateNext(p: Package, i: nat, ghost job: Job, ghost start: nat, ghost dev0: seq<Block>,
                      ghost stash0: map<Digest, seq<Block>>, ghost from: int)
      returns (st: Outcome)
      requires WellFormed(p, |dev|) && i < |p.cmds| && |dev0| == |dev|
      requires Valid() && canwrite && freestash == None && !isunresumable
      requires Kept(p, dev0, dev, i) && StashKept(p, stash0, stash, i) && NoneDoomed(p, dev0, stash0, from, i)
      modifies this`dev, this`stash, this`lastCommand, this`stashMap, this`buffer, this`freestash, this`isunresumable,
               this`targetVerified, this`streamPos, this`frontier, this`unsaved, this`cut
      ensures cut == (old(cut) || st == Stopped)
      ensures Valid() && |dev| == old(|dev|) && (isunresumable ==> st == Failed) && (st == Ok ==> freestash == None)
      ensures st == Ok ==>
                && Kept(p, dev0, dev, i + 1) && StashKept(p, stash0, stash, i + 1)
                && NoneDoomed(p, dev0, stash0, from, i + 1)
      ensures old(UpdateHead(job, start, i)) && job.p == p ==>
                && st != Failed && (st == Ok ==> UpdateHead(job, start, i + 1)) && (st == Stopped ==> Cut(job, start))
    {
      hide UpdateHead, Cut, WellFormed, WellFormedCommand, OriginsWithin, Kept, StashKept, Lost, Hopeless, Undisturbed,
        SameOutside, StashAfter;
      ghost var before, stash1 := dev, stash;
      WellFormedCommandAt(p, |dev|, i);
      if Hopeless(p, dev0, stash0, i) && Undisturbed(p, i) { DoomedIsLost(p, dev0, stash0, i); }
      st := UpdateCommand(p.cmds[i], p.stream, i, job, start);
      KeptNext(p, dev0, before, dev, i);
      StashKeptNext(p, stash0, stash1, stash, i);
    }

    lemma DoomedIsLost(p: Package, dev0: seq<Block>, stash0: map<Digest, seq<Block>>, i: nat)
      requires Valid() && canwrite && |dev0| == |dev| && WellFormed(p, |dev|) && i < |p.cmds|
      requires Kept(p, dev0, dev, i) && StashKept(p, stash0, stash, i)
      requires Hopeless(p, dev0, stash0, i) && Undisturbed(p, i)
      ensures WellFormedCommand(p.cmds[i], |dev|) && IsTransfer(p.cmds[i]) && Lost(p.cmds[i])
    {
      hide Gather, Targets, Reads, Overlapping;
      var c := p.cmds[i];
      WellFormedCommandAt(p, |dev|, i);
      CommandBounds(c, |dev|);
      GatherSame(dev0, dev, Targets(c));
      GatherSame(dev0, dev, Reads(c));
      if Overlapping(c) && SourceHash(c) in stash {
        assert forall j :: 0 <= j < i ==> !MayStash(p.cmds[j], SourceHash(c));
      }
    }

    lemma NothingRun(p: Package, dev0: seq<Block>, stash0: map<Digest, seq<Block>>, from: int)
      requires WellFormed(p, |dev0|)
      ensures Kept(p, dev0, dev0, 0) && StashKept(p, stash0, stash0, 0) && NoneDoomed(p, dev0, stash0, from, 0)
    {
    }

    lemma SkippedIsFine(p: Package, dev0: seq<Block>, stash0: map<Digest, seq<Block>>, from: int, i: nat)
      requires WellFormed(p, |dev0|) && i < |p.cmds| && i < from && NoneDoomed(p, dev0, stash0, from, i)
      ensures NoneDoomed(p, dev0, stash0, from, i + 1)
    {
    }

    /** The command loop of an update: commands up to the saved index are skipped. */
    method UpdateCommands(p: Package, saved: int, ghost job: Job, ghost start: nat) returns (st: Outcome)
      requires WellFormed(p, |dev|) && Valid() && canwrite && freestash == None && !isunresumable
      modifies this`dev, this`stash, this`lastCommand, this`stashMap, this`buffer, this`freestash, this`isunresumable,
               this`targetVerified, this`streamPos, this`frontier, this`unsaved, this`cut
      ensures cut == (old(cut) || st == Stopped)
      ensures Valid() && |dev| == old(|dev|) && (isunresumable ==> st == Failed)
      ensures st == Ok ==> NoneDoomed(p, old(dev), old(stash), saved + 1, |p.cmds|)
      ensures old(UpdateHead(job, start, start)) && job.p == p && start == saved + 1 ==>
                && st != Failed && (st == Ok ==> UpdateHead(job, start, |p.cmds|))
                && (st == Stopped ==> Cut(job, start))
    {
      hide UpdateHead, Cut, WellFormed, WellFormedCommand, OriginsWithin, Kept, StashKept, NoneDoomed;
      NothingRun(p, dev, stash, saved + 1);
      ghost var updating := UpdateHead(job, start, start) && job.p == p && start == saved + 1;
      if updating { HeadBound(job, start); }
      ghost var dev0, stash0 := dev, stash;
      st := Ok;
      var i := 0;
      while i < |p.cmds| && st == Ok
        invariant i <= |p.cmds| && Valid() && canwrite && |dev| == old(|dev|) && (isunresumable ==> st == Failed)
        invariant (st == Ok ==> freestash == None) && cut == (old(cut) || st == Stopped)
        invariant st == Ok ==> Kept(p, dev0, dev, i) && StashKept(p, stash0, stash, i)
        invariant st == Ok ==> NoneDoomed(p, dev0, stash0, saved + 1, i)
        invariant updating ==> st != Failed && (st == Stopped ==> Cut(job, start))
        invariant updating && st == Ok ==> UpdateHead(job, start, if i < start then start else i)
      {
        if i > saved {
          st := UpdateNext(p, i, job, start, dev0, stash0, saved + 1);
        } else {
          SkippedKeeps(p, dev0, dev, stash0, stash, i);
          SkippedIsFine(p, dev0, stash0, saved + 1, i);
        }
        i := i + 1;
      }
    }

    lemma HeadBound(job: Job, start: nat)
      requires UpdateHead(job, start, start)
      ensures start <= |job.p.cmds|
    {
    }

    /** The state after a dry run that ended well. */
    ghost predicate ReadyToUpdate(job: Job)
      reads this
    {
      Resumable(job, State(), frontier) && Confirmed(job, State())
    }

    /** block_image_update, after a dry run. */
    method Update(p: Package, ghost job: Job) returns (st: Outcome)
      requires WellFormed(p, |dev|) && OriginsWithin(stashMap, |dev|) && (stash != map[] ==> stashDir)
      modifies this
      ensures cut == (old(cut) || st == Stopped)
      ensures (stash != map[] ==> stashDir) && |dev| == old(|dev|)
      // On any device: after the saved index no transfer is hopeless and undisturbed if it ends well.
      ensures st == Ok ==>
                && NoneDoomed(p, old(dev), old(stash), StartOf(old(lastCommand)), |p.cmds|)
                && stash == map[] && lastCommand == None
      ensures st == Failed && isunresumable ==> stash == map[] && lastCommand == None
      ensures old(ReadyToUpdate(job)) && job.p == p ==> UpdateResult(job, old(lastCommand), st)
      ensures old(ReadyToUpdate(job)) && job.p == p && !cut ==> st == Ok
    {
      hide ReadyToUpdate, UpdateHead, Cut, WellFormed, OriginsWithin, UpdateResult, NoneDoomed;
      ghost var last0 := lastCommand;
      var alive, saved;
      ghost var start;
      alive, saved, start := BeginUpdate(job);
      if !alive { return Stopped; }
      st := ExecuteUpdate(p, saved, last0, job, start);
    }

    /** Before the first command. */
    method BeginUpdate(ghost job: Job) returns (alive: bool, saved: int, ghost start: nat)
      requires OriginsWithin(stashMap, |dev|) && (stash != map[] ==> stashDir)
      modifies this`stashDir, this`createdstash, this`canwrite, this`isunresumable, this`freestash, this`streamPos,
               this`isRetry, this`frontier, this`cut
      ensures cut == (old(cut) || !alive)
      ensures stash != map[] ==> stashDir
      ensures saved + 1 == StartOf(lastCommand)
      ensures alive ==> Valid() && canwrite && freestash == None && !isunresumable
      ensures old(ReadyToUpdate(job)) ==>
                if alive then UpdateHead(job, start, start) && start == saved + 1 == StartOf(lastCommand)
                else UpdateResult(job, lastCommand, Stopped)
    {
      hide ReadyToUpdate, UpdateHead, OriginsWithin, UpdateResult, Resumable, Confirmed, IndexConfirmed, Good, Running;
      ghost var ready := ReadyToUpdate(job);
      ghost var disk, frontier0 := State(), frontier;
      if ready { ReadyParts(job); }
      var retry: bool := *;
      canwrite, isunresumable, freestash, streamPos, isRetry := false, false, None, 0, retry;
      start := 0;
      alive := CreateStash();
      saved := if lastCommand.Some? then lastCommand.value else -1;
      if !alive {
        if ready { CutBeforeStart(job, disk, frontier0); }
        return;
      }
      canwrite := true;
      if ready {
        start, frontier := StartUpdate(job, disk, frontier0);
        HeadStarts(job, start);
      }
    }

    /** The commands after the saved index, and the end of the run. */
    method ExecuteUpdate(p: Package, saved: int, ghost last0: Option<int>, ghost job: Job, ghost start: nat)
      returns (st: Outcome)
      requires WellFormed(p, |dev|) && Valid() && canwrite && freestash == None && !isunresumable
      modifies this`dev, this`stash, this`stashDir, this`lastCommand, this`stashMap, this`buffer, this`freestash,
               this`isunresumable, this`targetVerified, this`streamPos, this`frontier, this`unsaved, this`cut
      ensures cut == (old(cut) || st == Stopped)
      ensures (stash != map[] ==> stashDir) && |dev| == old(|dev|)
      ensures st == Ok ==>
                NoneDoomed(p, old(dev), old(stash), saved + 1, |p.cmds|) && stash == map[] && lastCommand == None
      ensures st == Failed && isunresumable ==> stash == map[] && lastCommand == None
      ensures old(UpdateHead(job, start, start)) && job.p == p && start == saved + 1 == StartOf(last0) ==>
                UpdateResult(job, last0, st) && st != Failed
    {
      hide UpdateHead, Cut, WellFormed, OriginsWithin, UpdateResult, NoneDoomed;
      if UpdateHead(job, start, start) { HeadBound(job, start); }
      st := UpdateCommands(p, saved, job, start);
      st := EndUpdate(st, last0, job, start);
    }

    /** After the last command, or the first that did not succeed. */
    method EndUpdate(st: Outcome, ghost last0: Option<int>, ghost job: Job, ghost start: nat) returns (r: Outcome)
      requires stash != map[] ==> stashDir
      modifies this`stash, this`stashDir, this`lastCommand, this`cut
      ensures (stash != map[] ==> stashDir) && (r == Ok ==> st == Ok)
      ensures cut == (old(cut) || (st != Stopped && r == Stopped)) && (st == Stopped ==> r == Stopped)
      ensures st == Ok ==> r != Failed
      ensures r == Ok || (r == Failed && isunresumable) ==> stash == map[] && !stashDir && lastCommand == None
      ensures r == Failed && !isunresumable ==> stash == old(stash) && lastCommand == old(lastCommand)
      ensures start == StartOf(last0) <= |job.p.cmds| && !isunresumable
              && old(st == Ok ==> UpdateHead(job, start, |job.p.cmds|)) && old(st == Stopped ==> Cut(job, start))
              && st != Failed ==>
                UpdateResult(job, last0, r)
    {
      hide UpdateHead, Cut, UpdateResult, Running, Honest;
      ghost var updating := start == StartOf(last0) <= |job.p.cmds| && !isunresumable && st != Failed
        && (st == Ok ==> UpdateHead(job, start, |job.p.cmds|)) && (st == Stopped ==> Cut(job, start));
      ghost var finished := State();
      r := st;
      var alive: bool;
      if st == Stopped {
        if updating { CutIsResult(job, last0, start); }
        return;
      }
      if st == Ok {
        if updating { HeadIsFinished(job, start); }
        alive := DeleteStash();
        if updating { FinishedResult(job, last0, start, finished); }
        if !alive { return Stopped; }
        alive := DeleteLastCommandFile();
        if updating { FinishedResult(job, last0, start, finished); }
        if !alive { return Stopped; }
        return Ok;
      }
      if isunresumable {
        alive := DeleteLastCommandFile();
        if !alive { return Stopped; }
        alive := DeleteStash();
        if !alive { return Stopped; }
      }
    }

    lemma HeadStarts(job: Job, start: nat)
      requires canwrite && freestash == None && streamPos == 0 && start <= |job.p.cmds|
      requires Running(job, State(), frontier, start, start)
      ensures UpdateHead(job, start, start)
    {
      hide Running;
    }

    /** The outcome of an update: it is never given up; an interruption leaves a resumable state
        provided skipping was harmless; and a completed one leaves the device of the one-pass run
        exactly when skipping was harmless. */
    ghost predicate UpdateResult(job: Job, last0: Option<int>, st: Outcome)
      reads this
    {
      && Good(job) && WellFormed(job.p, |job.img|) && |dev| == |job.img| && 0 <= StartOf(last0) <= |job.p.cmds|
      && st != Failed
      && (Harmless(job, StartOf(last0)) ==> Resumable(job, State(), frontier))
      && (st == Ok ==> stash == map[] && lastCommand == None)
      && (st == Ok ==> (dev == RefRun(job.p, job.img, |job.p.cmds|).dev <==> Harmless(job, StartOf(last0))))
    }

    lemma ReadyParts(job: Job)
      requires ReadyToUpdate(job)
      ensures Resumable(job, Disk(dev, stash, lastCommand), frontier)
      ensures Good(job) && |dev| == |job.img| && IndexConfirmed(job, Disk(dev, stash, lastCommand))
    {
    }

    lemma CutBeforeStart(job: Job, d: Disk, k: nat)
      requires Resumable(job, d, k) && State() == d && frontier == k
      ensures UpdateResult(job, d.last, Stopped)
    {
      hide Core, Settled, IndexSane, Harmless;
      ResumableParts(job, d, k);
      ConfirmedStart(job, d, k);
    }

    ghost method StartUpdate(job: Job, d: Disk, k: nat) returns (start: nat, k': nat)
      requires Resumable(job, d, k) && Good(job) && |d.dev| == |job.img| && IndexConfirmed(job, d)
      ensures start == StartOf(d.last) <= |job.p.cmds| && Running(job, d, k', start, start)
    {
      ConfirmedFrontier(job, d, k);
      k' := StartAfterIndex(job, d, k);
      start := StartOf(d.last);
    }

    lemma CutIsResult(job: Job, last0: Option<int>, start: nat)
      requires Cut(job, start) && start == StartOf(last0) <= |job.p.cmds|
      ensures UpdateResult(job, last0, Stopped)
    {
      hide Harmless, Interrupted, Resumable;
      var i :| 0 <= i <= |job.p.cmds| && Interrupted(job, State(), frontier, start, i);
      InterruptedIsHonest(job, State(), frontier, start, i);
      if Harmless(job, start) { InterruptedIsResumable(job, State(), frontier, start, i); }
    }

    lemma HeadIsFinished(job: Job, start: nat)
      requires UpdateHead(job, start, |job.p.cmds|)
      ensures Running(job, State(), frontier, start, |job.p.cmds|) && Honest(stash)
    {
    }

    lemma FinishedResult(job: Job, last0: Option<int>, start: nat, finished: Disk)
      requires Running(job, finished, frontier, start, |job.p.cmds|) && start == StartOf(last0) <= |job.p.cmds|
      requires dev == finished.dev && stash.Keys <= finished.stash.Keys && Honest(stash)
      requires lastCommand == finished.last || lastCommand == None
      ensures UpdateResult(job, last0, Stopped)
      ensures stash == map[] && lastCommand == None ==> UpdateResult(job, last0, Ok)
    {
      hide Harmless, Interrupted, Running, Resumable, Honest;
      FinishedRemovesStash(job, finished, stash, lastCommand, frontier, start);
      InterruptedIsHonest(job, State(), frontier, start, |job.p.cmds|);
      CompletedRun(job, finished, frontier, start);
      if Harmless(job, start) { InterruptedIsResumable(job, State(), frontier, start, |job.p.cmds|); }
    }

    /** Verify-then-update attempts, each possibly interrupted, until one completes: the first that is
        not interrupted. */
    method RunAttempts(p: Package, attempts: nat, ghost job: Job) returns (completed: bool)
      requires job.p == p && WellFormed(p, |dev|) && (stash != map[] ==> stashDir)
      requires Resumable(job, State(), frontier) && StreamSafe(job)
      modifies this
      ensures stash != map[] ==> stashDir
      ensures Resumable(job, State(), frontier) && |dev| == |job.img|
      ensures completed ==> dev == RefRun(p, job.img, |p.cmds|).dev && stash == map[] && lastCommand == None
      ensures attempts > 0 ==> (completed <==> !cut)
    {
      hide Resumable, UpdateResult, ReadyToUpdate, Confirmed, StreamSafe, WellFormed, Good, Harmless, OriginsWithin;
      completed := false;
      var n := 0;
      ResumableParts(job, State(), frontier);
      while n < attempts && !completed
        invariant n <= attempts && (stash != map[] ==> stashDir) && |dev| == |job.img|
        invariant Resumable(job, State(), frontier)
        invariant completed ==> FinishedDevice(job, State())
        invariant (n > 0 ==> (completed <==> !cut)) && (n == 0 ==> !completed)
      {
        cut := false;
        var v := Verify(p, job);
        if v == Ok {
          StepBack(job);
          ghost var last0 := lastCommand;
          var u := Update(p, job);
          AttemptResult(job, last0, u);
          completed := u == Ok;
        }
        n := n + 1;
      }
    }

    ghost predicate FinishedDevice(job: Job, d: Disk)
      requires WellFormed(job.p, |job.img|)
    {
      d.dev == RefRun(job.p, job.img, |job.p.cmds|).dev && d.stash == map[] && d.last == None
    }

    lemma StepBack(job: Job)
      requires Resumable(job, State(), frontier) && Confirmed(job, State()) && StreamSafe(job)
      ensures ReadyToUpdate(job) && 0 <= StartOf(lastCommand) <= |job.p.cmds|
      ensures Harmless(job, StartOf(lastCommand))
    {
      hide Harmless, StreamSafe;
      ConfirmedStart(job, State(), frontier);
    }

    lemma AttemptResult(job: Job, last0: Option<int>, st: Outcome)
      requires UpdateResult(job, last0, st) && Harmless(job, StartOf(last0))
      ensures Resumable(job, State(), frontier)
      ensures st == Ok ==> FinishedDevice(job, State())
    {
      hide Harmless, Resumable;
    }
  }

  /** Writing zeros leaves zeros. */
  lemma {:induction false} ZeroWritten(dev: seq<Block>, locs: seq<nat>, n: nat)
    requires |locs| == n && InBounds(locs, |dev|)
    ensures forall b :: 0 <= b < |dev| && b in locs ==> AllZero(Put(dev, locs, Blank(n))[b])
    decreases n
  {
    hide AllZero;
    BlankIsZero();
    if n > 0 {
      assert Blank(n)[..n - 1] == Blank(n - 1);
      ZeroWritten(dev, locs[..n - 1], n - 1);
      assert locs == locs[..n - 1] + [locs[n - 1]];
    }
  }

  lemma BlankIsZero()
    ensures AllZero(ZERO_BLOCK)
  {
  }

  /** Ranges before i have been written. */
  ghost predicate WrittenSoFar(dev0: seq<Block>, dev: seq<Block>, tgt: seq<Range>, data: seq<Block>, i: nat) {
    && i <= |tgt| && Before(tgt, i) <= |data|
    && |Head(tgt, i)| == Before(tgt, i) && InBounds(Head(tgt, i), |dev0|)
    && dev == Put(dev0, Head(tgt, i), data[..Before(tgt, i)])
  }

  lemma NothingWritten(dev: seq<Block>, tgt: seq<Range>, data: seq<Block>)
    ensures WrittenSoFar(dev, dev, tgt, data, 0)
  {
  }

  lemma WrittenBounds(tgt: seq<Range>, i: nat)
    requires i < |tgt|
    ensures Before(tgt, i) + Length(tgt[i]) <= Total(tgt)
  {
    ExpandAt(tgt, i);
    ExpandLength(tgt);
  }

  lemma HeadSubset(tgt: seq<Range>, i: nat, b: nat)
    requires i <= |tgt| && b in Head(tgt, i)
    ensures b in Expand(tgt)
  {
    HeadIsExpand(tgt, i);
    assert tgt == tgt[..i] + tgt[i..];
    ExpandAppend(tgt[..i], tgt[i..]);
  }

  lemma HeadInBounds(tgt: seq<Range>, i: nat, n: nat)
    requires i <= |tgt| && Within(tgt, n)
    ensures |Head(tgt, i)| == Before(tgt, i) && InBounds(Head(tgt, i), n)
  {
    HeadIsExpand(tgt, i);
    ExpandWithin(tgt[..i], n);
  }

  lemma WrittenFrame(dev0: seq<Block>, before: seq<Block>, dev: seq<Block>, tgt: seq<Range>, data: seq<Block>, i: nat)
    requires WrittenSoFar(dev0, before, tgt, data, i) && i < |tgt| && |dev| == |before|
    requires forall b :: 0 <= b < |dev| && !(tgt[i].first <= b < tgt[i].second) ==> dev[b] == before[b]
    ensures forall b :: 0 <= b < |dev| && b !in Expand(tgt) ==> dev[b] == dev0[b]
  {
    forall b | 0 <= b < |dev| && b !in Expand(tgt) ensures dev[b] == dev0[b] {
      ExpandCovers(tgt, b);
      assert !(tgt[i].first <= b < tgt[i].second);
      if b in Head(tgt, i) { HeadSubset(tgt, i, b); }
      PutElsewhere(dev0, Head(tgt, i), data[..Before(tgt, i)], b);
    }
  }

  lemma WrittenStep(dev0: seq<Block>, before: seq<Block>, dev: seq<Block>, tgt: seq<Range>, data: seq<Block>, i: nat)
    requires WrittenSoFar(dev0, before, tgt, data, i) && i < |tgt| && Within(tgt, |dev0|)
    requires Before(tgt, i) + Length(tgt[i]) <= |data|
    requires dev == Overwrite(before, tgt[i].first, data[Before(tgt, i)..Before(tgt, i) + Length(tgt[i])])
    ensures WrittenSoFar(dev0, dev, tgt, data, i + 1)
  {
    hide Put, InBounds, Overwrite, Interval, Within, Before, Head, Length;
    HeadNext(tgt, i);
    var m, n := Before(tgt, i), Before(tgt, i + 1);
    HeadInBounds(tgt, i + 1, |dev0|);
    HeadInBounds(tgt, i, |dev0|);
    RangeEnd(tgt, i, |dev0|);
    PutRange(dev0, Head(tgt, i), data[..m], before, tgt[i], data[m..n]);
    PrefixJoin(data, m, n);
  }

  lemma HeadNext(tgt: seq<Range>, i: nat)
    requires i < |tgt|
    ensures Head(tgt, i + 1) == Head(tgt, i) + Interval(tgt[i]) && Before(tgt, i + 1) == Before(tgt, i) + Length(tgt[i])
  {
  }

  lemma RangeEnd(tgt: seq<Range>, i: nat, n: nat)
    requires Within(tgt, n) && i < |tgt|
    ensures tgt[i].first + Length(tgt[i]) <= n
  {
  }

  lemma PrefixJoin<T>(data: seq<T>, m: nat, n: nat)
    requires m <= n <= |data|
    ensures data[..m] + data[m..n] == data[..n]
  {
  }

  lemma PutRange(dev0: seq<Block>, locs: seq<nat>, da: seq<Block>, before: seq<Block>, r: Range, db: seq<Block>)
    requires |locs| == |da| && InBounds(locs, |dev0|) && before == Put(dev0, locs, da)
    requires |db| == Length(r) && r.first + |db| <= |dev0|
    ensures |locs + Interval(r)| == |da + db| && InBounds(locs + Interval(r), |dev0|)
    ensures Overwrite(before, r.first, db) == Put(dev0, locs + Interval(r), da + db)
  {
    PutInterval(before, r, db);
    PutSplits(dev0, locs, Interval(r), da, db);
  }

  lemma WrittenAll(dev0: seq<Block>, dev: seq<Block>, tgt: seq<Range>, data: seq<Block>)
    requires WrittenSoFar(dev0, dev, tgt, data, |tgt|) && |data| == Total(tgt)
    ensures |Expand(tgt)| == |data| && InBounds(Expand(tgt), |dev0|) && dev == Put(dev0, Expand(tgt), data)
    ensures forall b :: 0 <= b < |dev| && b !in Expand(tgt) ==> dev[b] == dev0[b]
  {
    HeadAll(tgt);
    BeforeAll(tgt);
    assert data[..|data|] == data;
    forall b | 0 <= b < |dev| && b !in Expand(tgt) ensures dev[b] == dev0[b] {
      PutElsewhere(dev0, Expand(tgt), data, b);
    }
  }

  lemma OverwriteIs(before: seq<Block>, dev: seq<Block>, at: nat, data: seq<Block>)
    requires |dev| == |before| && at + |data| <= |dev| && dev[at..at + |data|] == data
    requires forall b :: 0 <= b < |dev| && !(at <= b < at + |data|) ==> dev[b] == before[b]
    ensures dev == Overwrite(before, at, data)
  {
    forall b | 0 <= b < |dev| ensures dev[b] == Overwrite(before, at, data)[b] {
      if at <= b < at + |data| { assert dev[b] == dev[at..at + |data|][b - at]; }
    }
  }
}
