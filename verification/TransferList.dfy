/** Transfer lists: the commands, what a plain one-pass interpreter makes of them, and what the
    generator of a list guarantees.

    The interpreter `RefRun` knows nothing about hashes, stash files, saved indices or crashes.  It
    is the yardstick for the crash-tolerant executor in module Updater. */
module TransferList {
  import opened Basics
  import opened RangeSets
  import opened Scatter

  datatype Block = Block(bytes: seq<bv8>)

  const ZERO_BLOCK: Block := Block(seq(BLOCK_SIZE, _ => 0))

  /** A block of zeros only. */
  ghost predicate AllZero(block: Block) {
    |block.bytes| == BLOCK_SIZE && forall k :: 0 <= k < BLOCK_SIZE ==> block.bytes[k] == 0
  }

  /** An ideal hash: injective on block sequences. */
  datatype Digest = Digest(content: seq<Block>)

  /** What the patch program streams out, and whether it reports success. */
  datatype PatchOutput = PatchOutput(blocks: seq<Block>, ok: bool)

  datatype StashRef = StashRef(id: Digest, locs: seq<Range>)

  /** <src_block_count> ("-" | <src_range> [<src_loc>]) <[stash_id:stash_range] ...> */
  datatype Source = Source(count: nat, src: seq<Range>, locs: seq<Range>, stashes: seq<StashRef>)

  datatype Command =
    | Move(hash: Digest, tgt: seq<Range>, source: Source)
    | Diff(srcHash: Digest, tgtHash: Digest, tgt: seq<Range>, source: Source, patch: seq<Block> -> PatchOutput)
    | Stash(id: Digest, src: seq<Range>)
    | Free(id: Digest)
    | Zero(tgt: seq<Range>)
    | New(tgt: seq<Range>)

  /** The command list and the decompressed `new` data. */
  datatype Package = Package(cmds: seq<Command>, stream: seq<Block>)

  // ---------- what a command touches ----------

  predicate IsTransfer(c: Command) { c.Move? || c.Diff? }
  predicate IsFill(c: Command) { c.Zero? || c.New? }

  function SourceHash(c: Command): Digest
    requires IsTransfer(c)
  {
    if c.Move? then c.hash else c.srcHash
  }

  function TargetHash(c: Command): Digest
    requires IsTransfer(c)
  {
    if c.Move? then c.hash else c.tgtHash
  }

  function Targets(c: Command): seq<nat> {
    if c.Stash? || c.Free? then [] else Expand(c.tgt)
  }

  function Reads(c: Command): seq<nat> {
    if IsTransfer(c) then Expand(c.source.src) else if c.Stash? then Expand(c.src) else []
  }

  ghost predicate Uses(c: Command, id: Digest) {
    IsTransfer(c) && exists r :: 0 <= r < |c.source.stashes| && c.source.stashes[r].id == id
  }

  /** The source and target ranges of one command share a block. */
  ghost predicate Overlapping(c: Command) {
    IsTransfer(c) && exists b: nat :: Covers(c.source.src, b) && Covers(c.tgt, b)
  }

  // ---------- well-formedness: what the parser and its CHECKs demand ----------

  ghost predicate WellFormedSource(s: Source, blocks: nat) {
    && Within(s.src, blocks)
    && Ascending(s.locs) && Within(s.locs, s.count)
    && (s.src == [] ==> s.locs == [])
    && (s.src != [] && s.locs == [] ==> s.stashes == [])
    && Total(s.src) <= s.count
    && (s.locs != [] ==> Total(s.locs) == Total(s.src))
    && forall r :: 0 <= r < |s.stashes| ==> Ascending(s.stashes[r].locs) && Within(s.stashes[r].locs, s.count)
  }

  ghost predicate WellFormedCommand(c: Command, blocks: nat) {
    match c
    case Move(_, tgt, source) => tgt != [] && Within(tgt, blocks) && WellFormedSource(source, blocks)
    case Diff(_, _, tgt, source, _) => tgt != [] && Within(tgt, blocks) && WellFormedSource(source, blocks)
    case Stash(_, src) => src != [] && Within(src, blocks)
    case Free(_) => true
    case Zero(tgt) => tgt != [] && Within(tgt, blocks)
    case New(tgt) => tgt != [] && Within(tgt, blocks)
  }

  ghost predicate WellFormed(p: Package, blocks: nat) {
    forall i :: 0 <= i < |p.cmds| ==> WellFormedCommand(p.cmds[i], blocks)
  }

  lemma CommandBounds(c: Command, blocks: nat)
    requires WellFormedCommand(c, blocks)
    ensures InBounds(Targets(c), blocks) && InBounds(Reads(c), blocks)
    ensures IsTransfer(c) || IsFill(c) ==> |Targets(c)| == Total(c.tgt)
    ensures IsTransfer(c) ==> |Reads(c)| == Total(c.source.src)
    ensures c.Stash? ==> |Reads(c)| == Total(c.src)
  {
    if IsTransfer(c) || IsFill(c) { ExpandWithin(c.tgt, blocks); }
    if IsTransfer(c) { ExpandWithin(c.source.src, blocks); }
    if c.Stash? { ExpandWithin(c.src, blocks); }
  }

  // ---------- assembling the source of a command ----------

  /** Stash contents go to their ranges; an id without a usable content is skipped. */
  function PutStashes(buf: seq<Block>, table: map<Digest, seq<Block>>, refs: seq<StashRef>): (r: seq<Block>)
    requires forall i :: 0 <= i < |refs| ==> Within(refs[i].locs, |buf|)
    ensures |r| == |buf|
    decreases |refs|
  {
    if refs == [] then buf
    else
      PutStashes(PutStash(buf, table, refs[0]), table, refs[1..])
  }

  function PutStash(buf: seq<Block>, table: map<Digest, seq<Block>>, ref: StashRef): (r: seq<Block>)
    requires Within(ref.locs, |buf|)
    ensures |r| == |buf|
  {
    ExpandWithin(ref.locs, |buf|);
    if ref.id in table && |table[ref.id]| == Total(ref.locs)
    then Put(buf, Expand(ref.locs), table[ref.id])
    else buf
  }

  /** Device blocks first, packed or at their locations. */
  function PutDevice(buf: seq<Block>, dev: seq<Block>, s: Source): (r: seq<Block>)
    requires WellFormedSource(s, |dev|) && |buf| == s.count
    ensures |r| == |buf|
  {
    ExpandWithin(s.src, |dev|);
    ExpandWithin(s.locs, s.count);
    var packed := Gather(dev, Expand(s.src));
    if s.locs == [] then packed + buf[|packed|..] else Put(buf, Expand(s.locs), packed)
  }

  function Assemble(buf: seq<Block>, dev: seq<Block>, table: map<Digest, seq<Block>>, s: Source): (r: seq<Block>)
    requires WellFormedSource(s, |dev|) && |buf| == s.count
    ensures |r| == s.count
  {
    PutStashes(PutDevice(buf, dev, s), table, s.stashes)
  }

  // ---------- block by block ----------

  /** The stash of a reference has a content of the right size. */
  predicate Loads(table: map<Digest, seq<Block>>, ref: StashRef) {
    ref.id in table && |table[ref.id]| == Total(ref.locs)
  }

  /** Position p is one of those a stash goes to. */
  predicate FromLoaded(table: map<Digest, seq<Block>>, ref: StashRef, p: nat) {
    Loads(table, ref) && p in Expand(ref.locs)
  }

  /** Where block q of the source ranges goes. */
  function PlaceOf(s: Source, q: nat): (p: nat)
    requires q < |Expand(s.src)| && (s.locs != [] ==> q < |Expand(s.locs)|)
  {
    if s.locs == [] then q else Expand(s.locs)[q]
  }

  lemma {:induction false} PutStashesElsewhere(buf: seq<Block>, table: map<Digest, seq<Block>>, refs: seq<StashRef>,
                                               p: nat)
    requires p < |buf| && forall i :: 0 <= i < |refs| ==> Within(refs[i].locs, |buf|)
    requires forall i :: 0 <= i < |refs| ==> !FromLoaded(table, refs[i], p)
    ensures PutStashes(buf, table, refs)[p] == buf[p]
    decreases |refs|
  {
    hide Expand, Total;
    if refs != [] {
      ExpandWithin(refs[0].locs, |buf|);
      assert !FromLoaded(table, refs[0], p);
      if Loads(table, refs[0]) { PutElsewhere(buf, Expand(refs[0].locs), table[refs[0].id], p); }
      PutStashesElsewhere(PutStash(buf, table, refs[0]), table, refs[1..], p);
    }
  }

  /** The last stash that goes to a position gives its own block there. */
  lemma {:induction false} PutStashesHere(buf: seq<Block>, table: map<Digest, seq<Block>>, refs: seq<StashRef>, i: nat,
                                          m: nat)
    requires forall k :: 0 <= k < |refs| ==> Ascending(refs[k].locs) && Within(refs[k].locs, |buf|)
    requires i < |refs| && Loads(table, refs[i]) && m < |Expand(refs[i].locs)|
    requires forall j :: i < j < |refs| ==> !FromLoaded(table, refs[j], Expand(refs[i].locs)[m])
    ensures m < |table[refs[i].id]| && Expand(refs[i].locs)[m] < |buf|
    ensures PutStashes(buf, table, refs)[Expand(refs[i].locs)[m]] == table[refs[i].id][m]
    decreases |refs|
  {
    hide Expand, Total, Ascending, FromLoaded;
    var r, p := refs[0], Expand(refs[i].locs)[m];
    ExpandWithin(r.locs, |buf|);
    ExpandWithin(refs[i].locs, |buf|);
    var next := PutStash(buf, table, r);
    assert forall j :: 0 <= j < |refs[1..]| ==> refs[1..][j] == refs[j + 1];
    if i == 0 {
      AscendingExpands(r.locs);
      PutHere(buf, Expand(r.locs), table[r.id], m);
      PutStashesElsewhere(next, table, refs[1..], p);
    } else {
      PutStashesHere(next, table, refs[1..], i - 1, m);
    }
  }

  /** Block q of the source ranges goes to place q, or to place q of the locations. */
  lemma PutDeviceBlock(buf: seq<Block>, dev: seq<Block>, s: Source, q: nat)
    requires WellFormedSource(s, |dev|) && |buf| == s.count && q < Total(s.src)
    ensures |Expand(s.src)| == Total(s.src) && (s.locs != [] ==> |Expand(s.locs)| == Total(s.src))
    ensures InBounds(Expand(s.src), |dev|) && PlaceOf(s, q) < s.count
    ensures PutDevice(buf, dev, s)[PlaceOf(s, q)] == dev[Expand(s.src)[q]]
  {
    hide Expand, Total;
    ExpandWithin(s.src, |dev|);
    ExpandWithin(s.locs, s.count);
    if s.locs != [] {
      AscendingExpands(s.locs);
      PutHere(buf, Expand(s.locs), Gather(dev, Expand(s.src)), q);
    }
  }

  /** The assembled source has every device block at its place, unless a stash goes there. */
  lemma AssembledFromDevice(buf: seq<Block>, dev: seq<Block>, table: map<Digest, seq<Block>>, s: Source, q: nat)
    requires WellFormedSource(s, |dev|) && |buf| == s.count && q < Total(s.src)
    ensures |Expand(s.src)| == Total(s.src) && (s.locs != [] ==> |Expand(s.locs)| == Total(s.src))
    ensures InBounds(Expand(s.src), |dev|) && PlaceOf(s, q) < s.count
    ensures (forall i :: 0 <= i < |s.stashes| ==> !FromLoaded(table, s.stashes[i], PlaceOf(s, q))) ==>
              Assemble(buf, dev, table, s)[PlaceOf(s, q)] == dev[Expand(s.src)[q]]
  {
    hide Expand, Total, PutDevice, PlaceOf, FromLoaded;
    PutDeviceBlock(buf, dev, s, q);
    if forall i :: 0 <= i < |s.stashes| ==> !FromLoaded(table, s.stashes[i], PlaceOf(s, q)) {
      PutStashesElsewhere(PutDevice(buf, dev, s), table, s.stashes, PlaceOf(s, q));
    }
  }

  /** The assembled source has block m of stash i at place m of its range, unless a later stash goes there. */
  lemma AssembledFromStash(buf: seq<Block>, dev: seq<Block>, table: map<Digest, seq<Block>>, s: Source, i: nat, m: nat)
    requires WellFormedSource(s, |dev|) && |buf| == s.count && i < |s.stashes|
    requires Loads(table, s.stashes[i]) && m < |Expand(s.stashes[i].locs)|
    requires forall j :: i < j < |s.stashes| ==> !FromLoaded(table, s.stashes[j], Expand(s.stashes[i].locs)[m])
    ensures m < |table[s.stashes[i].id]| && Expand(s.stashes[i].locs)[m] < s.count
    ensures Assemble(buf, dev, table, s)[Expand(s.stashes[i].locs)[m]] == table[s.stashes[i].id][m]
  {
    hide Expand, Total, PutDevice, FromLoaded, Loads, Ascending, Within;
    PutStashesHere(PutDevice(buf, dev, s), table, s.stashes, i, m);
  }

  /** A source of device blocks only, packed. */
  predicate Packed(s: Source) {
    s.locs == [] && s.stashes == [] && Total(s.src) == s.count
  }

  lemma PackedSource(buf: seq<Block>, dev: seq<Block>, table: map<Digest, seq<Block>>, s: Source)
    requires WellFormedSource(s, |dev|) && |buf| == s.count && Packed(s)
    ensures InBounds(Expand(s.src), |dev|) && Assemble(buf, dev, table, s) == Gather(dev, Expand(s.src))
  {
    ExpandWithin(s.src, |dev|);
  }

  // ---------- the reference interpreter ----------

  datatype Ref = Ref(dev: seq<Block>, table: map<Digest, seq<Block>>, used: nat)

  function Blank(n: nat): seq<Block> {
    seq(n, _ => ZERO_BLOCK)
  }

  /** The source content a transfer sees in the one-pass run. */
  function SourceContent(c: Command, r: Ref): seq<Block>
    requires WellFormedCommand(c, |r.dev|) && IsTransfer(c)
  {
    Assemble(Blank(c.source.count), r.dev, r.table, c.source)
  }

  /** What a command writes to its targets, given `used` stream blocks consumed before it. */
  function TargetContent(c: Command, r: Ref, stream: seq<Block>): seq<Block>
    requires WellFormedCommand(c, |r.dev|)
  {
    match c
    case Move(_, _, _) => SourceContent(c, r)
    case Diff(_, _, _, _, patch) => patch(SourceContent(c, r)).blocks
    case Zero(tgt) => Blank(Total(tgt))
    case New(tgt) => Slice(stream, r.used, Total(tgt))
    case _ => []
  }

  function Slice(stream: seq<Block>, from: nat, n: nat): seq<Block> {
    if from + n <= |stream| then stream[from..from + n] else []
  }

  /** Stream blocks a command takes. */
  function Consumed(c: Command): nat {
    match c
    case New(tgt) => Total(tgt)
    case _ => 0
  }

  function RefStep(c: Command, r: Ref, stream: seq<Block>): (s: Ref)
    requires WellFormedCommand(c, |r.dev|)
    ensures |s.dev| == |r.dev|
  {
    CommandBounds(c, |r.dev|);
    match c
    case Stash(id, src) => r.(table := r.table[id := Gather(r.dev, Expand(src))])
    case Free(id) => r.(table := r.table - {id})
    case _ =>
      var content := TargetContent(c, r, stream);
      var used := r.used + Consumed(c);
      if |content| == |Targets(c)| then Ref(Put(r.dev, Targets(c), content), r.table, used)
      else r.(used := used)
  }

  function RefRun(p: Package, img: seq<Block>, n: nat): (r: Ref)
    requires WellFormed(p, |img|) && n <= |p.cmds|
    ensures |r.dev| == |img|
  {
    if n == 0 then Ref(img, map[], 0)
    else RefStep(p.cmds[n - 1], RefRun(p, img, n - 1), p.stream)
  }

  /** What command i writes in the one-pass run. */
  function Want(p: Package, img: seq<Block>, i: nat): seq<Block>
    requires WellFormed(p, |img|) && i < |p.cmds|
  {
    TargetContent(p.cmds[i], RefRun(p, img, i), p.stream)
  }

  // ---------- what the generator guarantees ----------

  /** No block is read after it has been written, and each block is written by one command. */
  ghost predicate ReadBeforeWrite(p: Package) {
    && (forall i, j, b :: 0 <= i < j < |p.cmds| && b in Targets(p.cmds[i]) ==> b !in Reads(p.cmds[j]))
    && (forall i, j, b :: 0 <= i < j < |p.cmds| && b in Targets(p.cmds[i]) ==> b !in Targets(p.cmds[j]))
    && (forall i :: 0 <= i < |p.cmds| ==> Distinct(Targets(p.cmds[i])))
  }

  /** Stashed before use, freed after the last use, ids unique and never the source hash of an
      overlapping command; only stashed ids are freed. */
  ghost predicate StashDiscipline(p: Package) {
    && (forall u, id :: 0 <= u < |p.cmds| && Uses(p.cmds[u], id) ==>
          exists s :: 0 <= s < u && p.cmds[s].Stash? && p.cmds[s].id == id)
    && (forall f, u :: 0 <= f < |p.cmds| && p.cmds[f].Free? && 0 <= u < |p.cmds| && Uses(p.cmds[u], p.cmds[f].id) ==>
      u < f)
    && (forall f :: 0 <= f < |p.cmds| && p.cmds[f].Free? ==>
          exists s :: 0 <= s < f && p.cmds[s].Stash? && p.cmds[s].id == p.cmds[f].id)
    && (forall s, t :: 0 <= s < t < |p.cmds| && p.cmds[s].Stash? && p.cmds[t].Stash? ==> p.cmds[s].id != p.cmds[t].id)
    && (forall s, c :: 0 <= s < |p.cmds| && p.cmds[s].Stash? && 0 <= c < |p.cmds| && Overlapping(p.cmds[c]) ==>
          p.cmds[s].id != SourceHash(p.cmds[c]))
  }

  ghost predicate FromStash(refs: seq<StashRef>, q: nat) {
    exists i :: 0 <= i < |refs| && q in Expand(refs[i].locs)
  }

  /** Every source block comes from somewhere. */
  ghost predicate Complete(s: Source) {
    if s.locs == [] && s.stashes == [] then Total(s.src) == s.count
    else forall q :: 0 <= q < s.count ==>
           q in Expand(s.locs) || FromStash(s.stashes, q)
  }

  /** The hashes and sizes in the list are those of the one-pass run. */
  ghost predicate Accurate(c: Command, r: Ref, stream: seq<Block>)
    requires WellFormedCommand(c, |r.dev|)
  {
    CommandBounds(c, |r.dev|);
    match c
    case Move(hash, tgt, source) =>
      && AccurateSource(source, r.table)
      && hash == Digest(SourceContent(c, r)) && source.count == Total(tgt)
    case Diff(srcHash, tgtHash, tgt, source, patch) =>
      && AccurateSource(source, r.table)
      && srcHash == Digest(SourceContent(c, r))
      && var out := patch(SourceContent(c, r));
         out.ok && |out.blocks| == Total(tgt) && tgtHash == Digest(out.blocks)
    case Stash(id, src) => id == Digest(Gather(r.dev, Expand(src)))
    case Free(_) => true
    case Zero(_) => true
    case New(tgt) => r.used + Total(tgt) <= |stream|
  }

  ghost predicate AccurateSource(s: Source, table: map<Digest, seq<Block>>) {
    && Complete(s)
    && forall i :: 0 <= i < |s.stashes| ==>
         s.stashes[i].id in table && |table[s.stashes[i].id]| == Total(s.stashes[i].locs)
  }

  ghost predicate Guaranteed(p: Package, img: seq<Block>)
    requires WellFormed(p, |img|)
  {
    && ReadBeforeWrite(p) && StashDiscipline(p)
    && forall i :: 0 <= i < |p.cmds| ==> Accurate(p.cmds[i], RefRun(p, img, i), p.stream)
  }

  // ---------- consequences for the one-pass run ----------

  ghost predicate WrittenBefore(p: Package, n: nat, b: nat)
    requires n <= |p.cmds|
  {
    exists j :: 0 <= j < n && b in Targets(p.cmds[j])
  }

  predicate IsWriter(c: Command) { IsTransfer(c) || IsFill(c) }

  lemma TargetLength(p: Package, img: seq<Block>, i: nat)
    requires WellFormed(p, |img|) && Guaranteed(p, img) && i < |p.cmds|
    ensures InBounds(Targets(p.cmds[i]), |img|) && Distinct(Targets(p.cmds[i]))
    ensures IsWriter(p.cmds[i]) ==> |Want(p, img, i)| == |Targets(p.cmds[i])|
  {
    CommandBounds(p.cmds[i], |img|);
    assert Accurate(p.cmds[i], RefRun(p, img, i), p.stream);
  }

  lemma RefStepDevice(c: Command, r: Ref, stream: seq<Block>)
    requires WellFormedCommand(c, |r.dev|) && InBounds(Targets(c), |r.dev|)
    requires IsWriter(c) ==> |TargetContent(c, r, stream)| == |Targets(c)|
    ensures RefStep(c, r, stream).dev ==
            if IsWriter(c) then Put(r.dev, Targets(c), TargetContent(c, r, stream)) else r.dev
  {
  }

  /** One step of the one-pass run, as far as the device is concerned. */
  lemma RefNext(p: Package, img: seq<Block>, i: nat)
    requires WellFormed(p, |img|) && Guaranteed(p, img) && i < |p.cmds|
    ensures InBounds(Targets(p.cmds[i]), |img|) && Distinct(Targets(p.cmds[i]))
    ensures IsWriter(p.cmds[i]) ==> |Want(p, img, i)| == |Targets(p.cmds[i])|
    ensures RefRun(p, img, i + 1).dev ==
            if IsWriter(p.cmds[i]) then Put(RefRun(p, img, i).dev, Targets(p.cmds[i]), Want(p, img, i))
            else RefRun(p, img, i).dev
  {
    TargetLength(p, img, i);
    RefStepDevice(p.cmds[i], RefRun(p, img, i), p.stream);
  }

  /** A block not written yet still has its original content. */
  lemma {:induction false} RefUnwritten(p: Package, img: seq<Block>, n: nat, b: nat)
    requires WellFormed(p, |img|) && Guaranteed(p, img) && n <= |p.cmds| && b < |img| && !WrittenBefore(p, n, b)
    ensures RefRun(p, img, n).dev[b] == img[b]
  {
    hide *;
    if n > 0 {
      NotWrittenBefore(p, n, b);
      RefUnwritten(p, img, n - 1, b);
      RefNext(p, img, n - 1);
      if IsWriter(p.cmds[n - 1]) {
        TargetLength(p, img, n - 1);
        PutElsewhere(RefRun(p, img, n - 1).dev, Targets(p.cmds[n - 1]), Want(p, img, n - 1), b);
      }
    } else {
      RefStarts(p, img);
    }
  }

  lemma NotWrittenBefore(p: Package, n: nat, b: nat)
    requires 0 < n <= |p.cmds| && !WrittenBefore(p, n, b)
    ensures !WrittenBefore(p, n - 1, b) && b !in Targets(p.cmds[n - 1])
  {
  }

  lemma RefStarts(p: Package, img: seq<Block>)
    requires WellFormed(p, |img|)
    ensures RefRun(p, img, 0).dev == img
  {
  }

  lemma TargetsApart(p: Package, img: seq<Block>, i: nat, j: nat)
    requires WellFormed(p, |img|) && Guaranteed(p, img) && i < |p.cmds| && j < |p.cmds| && i != j
    ensures forall b :: b in Targets(p.cmds[i]) ==> b !in Targets(p.cmds[j])
  {
  }

  lemma GatherKept(dev: seq<Block>, t: seq<nat>, locs: seq<nat>, data: seq<Block>)
    requires InBounds(t, |dev|) && InBounds(locs, |dev|) && |locs| == |data|
    requires forall b :: b in t ==> b !in locs
    ensures Gather(Put(dev, locs, data), t) == Gather(dev, t)
  {
    forall q | 0 <= q < |t| ensures Put(dev, locs, data)[t[q]] == dev[t[q]] {
      assert t[q] in t;
      PutElsewhere(dev, locs, data, t[q]);
    }
  }

  /** A command's targets keep what it wrote, since no other command writes them. */
  lemma {:induction false} RefWritten(p: Package, img: seq<Block>, n: nat, i: nat)
    requires WellFormed(p, |img|) && Guaranteed(p, img) && i < n <= |p.cmds| && IsWriter(p.cmds[i])
    ensures InBounds(Targets(p.cmds[i]), |img|)
    ensures Gather(RefRun(p, img, n).dev, Targets(p.cmds[i])) == Want(p, img, i)
  {
    hide *;
    TargetLength(p, img, i);
    RefNext(p, img, n - 1);
    var dev, last := RefRun(p, img, n - 1).dev, Targets(p.cmds[n - 1]);
    if i == n - 1 {
      GatherPut(dev, last, Want(p, img, i));
    } else {
      RefWritten(p, img, n - 1, i);
      if IsWriter(p.cmds[n - 1]) {
        TargetsApart(p, img, i, n - 1);
        GatherKept(dev, Targets(p.cmds[i]), last, Want(p, img, n - 1));
      }
    }
  }

  /** Every read of the one-pass run sees original content. */
  lemma RefReadsOriginal(p: Package, img: seq<Block>, n: nat)
    requires WellFormed(p, |img|) && Guaranteed(p, img) && n < |p.cmds|
    ensures InBounds(Reads(p.cmds[n]), |img|)
    ensures Gather(RefRun(p, img, n).dev, Reads(p.cmds[n])) == Gather(img, Reads(p.cmds[n]))
  {
    CommandBounds(p.cmds[n], |img|);
    var locs := Reads(p.cmds[n]);
    forall q | 0 <= q < |locs| ensures RefRun(p, img, n).dev[locs[q]] == img[locs[q]] {
      assert locs[q] in locs;
      RefUnwritten(p, img, n, locs[q]);
    }
  }

  /** After a move of packed blocks block q of its source is block q of its target, to the end of the run. */
  lemma MovedBlock(p: Package, img: seq<Block>, i: nat, q: nat)
    requires WellFormed(p, |img|) && Guaranteed(p, img) && i < |p.cmds|
    requires p.cmds[i].Move? && Packed(p.cmds[i].source) && q < p.cmds[i].source.count
    ensures var tgt, src := Expand(p.cmds[i].tgt), Expand(p.cmds[i].source.src);
            && |tgt| == |src| == p.cmds[i].source.count && InBounds(tgt, |img|) && InBounds(src, |img|)
            && RefRun(p, img, |p.cmds|).dev[tgt[q]] == img[src[q]]
  {
    hide Expand, Total, Gather, RefRun, Assemble;
    var c, r := p.cmds[i], RefRun(p, img, i);
    CommandBounds(c, |img|);
    RefWritten(p, img, |p.cmds|, i);
    RefReadsOriginal(p, img, i);
    AccurateAt(p, img, i);
    PackedSource(Blank(c.source.count), r.dev, r.table, c.source);
    GatherAt(RefRun(p, img, |p.cmds|).dev, Targets(c), q);
    GatherAt(img, Reads(c), q);
  }

  lemma GatherAt<T>(dev: seq<T>, locs: seq<nat>, q: nat)
    requires InBounds(locs, |dev|) && q < |locs|
    ensures Gather(dev, locs)[q] == dev[locs[q]]
  {
  }

  /** A zeroed block is zero at the end of the run, and block q of a `new` is block q of what the stream
      has left. */
  lemma FilledBlock(p: Package, img: seq<Block>, i: nat, q: nat)
    requires WellFormed(p, |img|) && Guaranteed(p, img) && i < |p.cmds| && IsFill(p.cmds[i]) && q < Total(p.cmds[i].tgt)
    ensures var c, tgt, used := p.cmds[i], Expand(p.cmds[i].tgt), RefRun(p, img, i).used;
            && |tgt| == Total(c.tgt) && InBounds(tgt, |img|)
            && (c.Zero? ==> AllZero(RefRun(p, img, |p.cmds|).dev[tgt[q]]))
            && (c.New? ==> used + q < |p.stream| && RefRun(p, img, |p.cmds|).dev[tgt[q]] == p.stream[used + q])
  {
    hide Expand, Total, Gather, RefRun;
    var c := p.cmds[i];
    CommandBounds(c, |img|);
    RefWritten(p, img, |p.cmds|, i);
    AccurateAt(p, img, i);
    GatherAt(RefRun(p, img, |p.cmds|).dev, Targets(c), q);
  }

  /** The stream blocks taken before command i. */
  lemma UsedByNews(p: Package, img: seq<Block>, i: nat)
    requires WellFormed(p, |img|) && i < |p.cmds|
    ensures RefRun(p, img, 0).used == 0
    ensures RefRun(p, img, i + 1).used == RefRun(p, img, i).used + if p.cmds[i].New? then Total(p.cmds[i].tgt) else 0
  {
  }

  lemma AccurateAt(p: Package, img: seq<Block>, i: nat)
    requires WellFormed(p, |img|) && Guaranteed(p, img) && i < |p.cmds|
    ensures Accurate(p.cmds[i], RefRun(p, img, i), p.stream)
  {
  }

  lemma RefStepTable(c: Command, r: Ref, stream: seq<Block>, id: Digest)
    requires WellFormedCommand(c, |r.dev|) && Accurate(c, r, stream)
    requires id in RefStep(c, r, stream).table
    ensures RefStep(c, r, stream).table[id] == if c.Stash? && c.id == id then id.content else
            if id in r.table then r.table[id] else []
    ensures (c.Stash? && c.id == id) || id in r.table
  {
  }

  /** The stash table holds content under the id that is its hash. */
  lemma {:induction false} RefTable(p: Package, img: seq<Block>, n: nat, id: Digest)
    requires WellFormed(p, |img|) && Guaranteed(p, img) && n <= |p.cmds| && id in RefRun(p, img, n).table
    ensures RefRun(p, img, n).table[id] == id.content
  {
    hide *;
    if n > 0 {
      var c, r := p.cmds[n - 1], RefRun(p, img, n - 1);
      AccurateAt(p, img, n - 1);
      RefRunStep(p, img, n);
      RefStepTable(c, r, p.stream, id);
      if !(c.Stash? && c.id == id) {
        RefTable(p, img, n - 1, id);
      }
    } else {
      NoTable(p, img);
    }
  }

  lemma RefRunStep(p: Package, img: seq<Block>, n: nat)
    requires WellFormed(p, |img|) && 0 < n <= |p.cmds|
    ensures WellFormedCommand(p.cmds[n - 1], |img|)
    ensures RefRun(p, img, n) == RefStep(p.cmds[n - 1], RefRun(p, img, n - 1), p.stream)
  {
  }

  lemma NoTable(p: Package, img: seq<Block>)
    requires WellFormed(p, |img|)
    ensures RefRun(p, img, 0).table == map[]
  {
  }

  /** Device contents are determined by what was written and what was not. */
  lemma RefIsDetermined(p: Package, img: seq<Block>, dev: seq<Block>)
    requires WellFormed(p, |img|) && Guaranteed(p, img) && |dev| == |img|
    requires forall b :: 0 <= b < |img| && !WrittenBefore(p, |p.cmds|, b) ==> dev[b] == img[b]
    requires forall i :: 0 <= i < |p.cmds| && IsWriter(p.cmds[i]) ==>
               InBounds(Targets(p.cmds[i]), |dev|) && Gather(dev, Targets(p.cmds[i])) == Want(p, img, i)
    ensures dev == RefRun(p, img, |p.cmds|).dev
  {
    hide WellFormed, Guaranteed, RefRun, Want, Gather;
    var n := |p.cmds|;
    var ref := RefRun(p, img, n).dev;
    forall b | 0 <= b < |img| ensures dev[b] == ref[b] {
      if WrittenBefore(p, n, b) {
        var i :| 0 <= i < n && b in Targets(p.cmds[i]);
        var t := Targets(p.cmds[i]);
        var q :| 0 <= q < |t| && t[q] == b;
        RefWritten(p, img, n, i);
        GatherAt(dev, t, q);
        GatherAt(ref, t, q);
      } else {
        RefUnwritten(p, img, n, b);
      }
    }
  }
}
