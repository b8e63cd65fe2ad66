/** The invariant that makes an interrupted update resumable, and the steps that keep it.

    Everything here is about values: `Disk` is what survives a power cut, and each lemma says what
    one durable change does to the invariant. */
module Resume {
  import opened Basics
  import opened RangeSets
  import opened Scatter
  import opened TransferList

  /** What survives an interruption: the partition, the stash directory, the last-command index. */
  datatype Disk = Disk(dev: seq<Block>, stash: map<Digest, seq<Block>>, last: Option<int>)

  /** A package and the image it was generated for. */
  datatype Job = Job(p: Package, img: seq<Block>)

  ghost predicate Good(job: Job) {
    WellFormed(job.p, |job.img|) && Guaranteed(job.p, job.img)
  }

  /** The targets of command i hold what the one-pass run writes there. */
  ghost predicate Done(job: Job, dev: seq<Block>, i: nat)
    requires Good(job) && i < |job.p.cmds| && |dev| == |job.img|
  {
    CommandBounds(job.p.cmds[i], |job.img|);
    Gather(dev, Targets(job.p.cmds[i])) == Want(job.p, job.img, i)
  }

  /** The blocks command i reads still have their original content. */
  ghost predicate Intact(job: Job, dev: seq<Block>, i: nat)
    requires Good(job) && i < |job.p.cmds| && |dev| == |job.img|
  {
    CommandBounds(job.p.cmds[i], |job.img|);
    Gather(dev, Reads(job.p.cmds[i])) == Gather(job.img, Reads(job.p.cmds[i]))
  }

  /** A stash file holds the content its name is the hash of. */
  ghost predicate Honest(stash: map<Digest, seq<Block>>) {
    forall id :: id in stash ==> stash[id] == id.content
  }

  ghost predicate Untouched(job: Job, dev: seq<Block>, k: nat)
    requires k <= |job.p.cmds| && |dev| == |job.img|
  {
    forall b :: 0 <= b < |dev| && !WrittenBefore(job.p, k, b) ==> dev[b] == job.img[b]
  }

  ghost predicate StashesKept(job: Job, stash: map<Digest, seq<Block>>, k: nat) {
    forall s, u :: 0 <= s < k && k <= u < |job.p.cmds| && job.p.cmds[s].Stash? && Uses(job.p.cmds[u], job.p.cmds[s].id)
                   ==> job.p.cmds[s].id in stash
  }

  ghost predicate TransfersDone(job: Job, dev: seq<Block>, k: nat)
    requires Good(job) && k <= |job.p.cmds| && |dev| == |job.img|
  {
    forall i :: 0 <= i < k && IsTransfer(job.p.cmds[i]) ==> Done(job, dev, i)
  }

  function Next(job: Job, k: nat): nat {
    if k < |job.p.cmds| then k + 1 else k
  }

  /** Command k is the only one that may be half done: the transfers before it are complete, nothing
      after it has been written, the stashes it or a later command needs are on disk, and either its
      source is intact or a copy of it is in the stash. */
  ghost predicate Core(job: Job, d: Disk, k: nat) {
    && Good(job) && k <= |job.p.cmds| && |d.dev| == |job.img|
    && TransfersDone(job, d.dev, k)
    && Untouched(job, d.dev, Next(job, k))
    && Honest(d.stash) && StashesKept(job, d.stash, k)
    && (k < |job.p.cmds| ==> Intact(job, d.dev, k) || Backed(job, d.stash, k))
  }

  ghost predicate Backed(job: Job, stash: map<Digest, seq<Block>>, k: nat)
    requires k < |job.p.cmds|
  {
    Overlapping(job.p.cmds[k]) && SourceHash(job.p.cmds[k]) in stash
  }

  /** Core with the stronger alternative: nothing of command k has been written over its source. */
  ghost predicate Clean(job: Job, d: Disk, k: nat) {
    Core(job, d, k) && (k < |job.p.cmds| ==> Intact(job, d.dev, k))
  }

  /** Commands that write to the stash, explicitly or to back up an overlapping source. */
  ghost predicate SavesIndex(c: Command) {
    c.Stash? || Overlapping(c)
  }

  /** The saved index is that of a command that writes to the stash; it points before the frontier,
      or at a transfer that is the frontier. */
  ghost predicate IndexSane(job: Job, last: Option<int>, k: nat) {
    last.Some? ==>
      && 0 <= last.value < |job.p.cmds| && SavesIndex(job.p.cmds[last.value])
      && (last.value < k || (last.value == k && IsTransfer(job.p.cmds[k])))
  }

  // ---------- fills, and the stream position a resumed run starts from ----------

  /** What command j's fill writes in a run that skips every command before `start`.  A skipped
      `new` does not consume the stream, so the stream is read from its beginning at `start`. */
  function Fill(job: Job, start: nat, j: nat): seq<Block>
    requires WellFormed(job.p, |job.img|) && j < |job.p.cmds| && start <= |job.p.cmds|
  {
    var c := job.p.cmds[j];
    if c.New? && start <= j && UsedBefore(job.p, start) <= UsedBefore(job.p, j)
    then Slice(job.p.stream, UsedBefore(job.p, j) - UsedBefore(job.p, start), Total(c.tgt))
    else Want(job.p, job.img, j)
  }

  function UsedBefore(p: Package, n: nat): nat
    requires n <= |p.cmds|
  {
    if n == 0 then 0 else UsedBefore(p, n - 1) + Consumed(p.cmds[n - 1])
  }

  ghost predicate Filled(job: Job, dev: seq<Block>, start: nat, n: nat)
    requires Good(job) && n <= |job.p.cmds| && start <= |job.p.cmds| && |dev| == |job.img|
  {
    forall j :: 0 <= j < n && IsFill(job.p.cmds[j]) ==> Holds(job, dev, j, Fill(job, start, j))
  }

  ghost predicate Holds(job: Job, dev: seq<Block>, j: nat, content: seq<Block>)
    requires Good(job) && j < |job.p.cmds| && |dev| == |job.img|
  {
    CommandBounds(job.p.cmds[j], |job.img|);
    Gather(dev, Targets(job.p.cmds[j])) == content
  }

  /** Skipping the commands before `start` does not change what the later `new` commands get. */
  ghost predicate Harmless(job: Job, start: nat)
    requires WellFormed(job.p, |job.img|) && start <= |job.p.cmds|
  {
    forall j :: start <= j < |job.p.cmds| && job.p.cmds[j].New? ==> Fill(job, start, j) == Want(job.p, job.img, j)
  }

  /** The fills before the saved index, which a resumed run skips unchecked, are complete. */
  ghost predicate Settled(job: Job, d: Disk)
    requires Good(job) && |d.dev| == |job.img|
  {
    d.last.Some? && 0 <= d.last.value < |job.p.cmds| ==> Filled(job, d.dev, |job.p.cmds|, d.last.value)
  }

  /** What every interruption leaves behind. */
  ghost predicate Resumable(job: Job, d: Disk, k: nat) {
    Core(job, d, k) && IndexSane(job, d.last, k) && Settled(job, d)
  }

  // ---------- facts about the one-pass run, in terms of Done and Intact ----------

  lemma RefStepUsed(c: Command, r: Ref, stream: seq<Block>)
    requires WellFormedCommand(c, |r.dev|)
    ensures RefStep(c, r, stream).used == r.used + Consumed(c)
  {
    hide Put, Gather, TargetContent;
  }

  lemma {:induction false} RefUsed(job: Job, n: nat)
    requires WellFormed(job.p, |job.img|) && n <= |job.p.cmds|
    ensures RefRun(job.p, job.img, n).used == UsedBefore(job.p, n)
  {
    hide RefStep, Consumed, WellFormedCommand;
    if n > 0 {
      WellFormedCommandAt(job.p, |job.img|, n - 1);
      RefUsed(job, n - 1);
      RefStepUsed(job.p.cmds[n - 1], RefRun(job.p, job.img, n - 1), job.p.stream);
    }
  }

  lemma {:induction false} UsedGrows(p: Package, m: nat, n: nat)
    requires m <= n <= |p.cmds|
    ensures UsedBefore(p, m) <= UsedBefore(p, n)
  {
    if m < n { UsedGrows(p, m, n - 1); }
  }

  /** A run from the first command reads every slice at its own place. */
  lemma FromStartHarmless(job: Job)
    requires WellFormed(job.p, |job.img|)
    ensures Harmless(job, 0)
  {
    hide RefRun, Total, WellFormed;
    forall j | 0 <= j < |job.p.cmds| && job.p.cmds[j].New? ensures Fill(job, 0, j) == Want(job.p, job.img, j) {
      RefUsed(job, j);
    }
  }

  lemma HarmlessFill(job: Job, start: nat, j: nat)
    requires WellFormed(job.p, |job.img|) && start <= |job.p.cmds| && Harmless(job, start) && j < |job.p.cmds|
    ensures Fill(job, start, j) == Want(job.p, job.img, j)
  {
  }

  lemma TransferFacts(job: Job, i: nat)
    requires Good(job) && i < |job.p.cmds| && IsTransfer(job.p.cmds[i])
    ensures WellFormedCommand(job.p.cmds[i], |job.img|)
    ensures var c, r := job.p.cmds[i], RefRun(job.p, job.img, i);
            && SourceHash(c) == Digest(SourceContent(c, r))
            && TargetHash(c) == Digest(Want(job.p, job.img, i))
            && AccurateSource(c.source, r.table)
            && (c.Move? ==> Want(job.p, job.img, i) == SourceContent(c, r))
            && (c.Diff? ==> c.patch(SourceContent(c, r)) == PatchOutput(Want(job.p, job.img, i), true))
            && |Want(job.p, job.img, i)| == Total(c.tgt)
  {
    AccurateAt(job.p, job.img, i);
  }

  lemma StashFacts(job: Job, s: nat)
    requires Good(job) && s < |job.p.cmds| && job.p.cmds[s].Stash?
    ensures InBounds(Reads(job.p.cmds[s]), |job.img|)
    ensures job.p.cmds[s].id.content == Gather(job.img, Reads(job.p.cmds[s]))
  {
    RefReadsOriginal(job.p, job.img, s);
    AccurateAt(job.p, job.img, s);
  }

  /** Command i's blocks cannot have been written while the frontier is at or before i and i itself
      has not started. */
  lemma UntouchedIsIntact(job: Job, dev: seq<Block>, k: nat, i: nat)
    requires Good(job) && |dev| == |job.img| && k <= i < |job.p.cmds| && Untouched(job, dev, k)
    ensures Intact(job, dev, i)
  {
    CommandBounds(job.p.cmds[i], |job.img|);
    var locs := Reads(job.p.cmds[i]);
    forall q | 0 <= q < |locs| ensures dev[locs[q]] == job.img[locs[q]] {
      assert locs[q] in locs;
      assert !WrittenBefore(job.p, k, locs[q]);
    }
  }

  lemma ApartWhenNotOverlapping(c: Command, blocks: nat, b: nat)
    requires WellFormedCommand(c, blocks) && IsTransfer(c) && !Overlapping(c) && b in Reads(c)
    ensures b !in Targets(c)
  {
    ExpandCovers(c.source.src, b);
    ExpandCovers(c.tgt, b);
  }

  /** A command whose ranges do not overlap never spoils its own source. */
  lemma NonOverlappingIntact(job: Job, dev: seq<Block>, i: nat)
    requires Good(job) && |dev| == |job.img| && i < |job.p.cmds| && Untouched(job, dev, i + 1)
    requires !Overlapping(job.p.cmds[i])
    ensures Intact(job, dev, i)
  {
    var c := job.p.cmds[i];
    CommandBounds(c, |job.img|);
    var locs := Reads(c);
    forall q | 0 <= q < |locs| ensures dev[locs[q]] == job.img[locs[q]] {
      assert locs[q] in locs;
      if IsTransfer(c) { ApartWhenNotOverlapping(c, |job.img|, locs[q]); }
      NotWrittenYet(job, i, locs[q]);
    }
  }

  lemma NotWrittenYet(job: Job, i: nat, b: nat)
    requires Good(job) && i < |job.p.cmds| && b in Reads(job.p.cmds[i]) && b !in Targets(job.p.cmds[i])
    ensures !WrittenBefore(job.p, i + 1, b)
  {
  }

  // ---------- what one durable change does ----------

  /** dev' differs from dev at most in the targets of command i. */
  ghost predicate WritesOnly(job: Job, dev: seq<Block>, dev': seq<Block>, i: nat)
    requires i < |job.p.cmds|
  {
    |dev'| == |dev| && forall b :: 0 <= b < |dev| && b !in Targets(job.p.cmds[i]) ==> dev'[b] == dev[b]
  }

  lemma GatherUnchanged(dev: seq<Block>, dev': seq<Block>, locs: seq<nat>)
    requires |dev'| == |dev| && InBounds(locs, |dev|)
    requires forall b :: b in locs ==> dev'[b] == dev[b]
    ensures Gather(dev', locs) == Gather(dev, locs)
  {
    forall q | 0 <= q < |locs| ensures dev'[locs[q]] == dev[locs[q]] {
      assert locs[q] in locs;
    }
  }

  lemma TargetsKept(job: Job, dev: seq<Block>, dev': seq<Block>, i: nat, j: nat)
    requires Good(job) && |dev| == |job.img| && i < |job.p.cmds| && j < |job.p.cmds| && i != j
    requires WritesOnly(job, dev, dev', i)
    ensures InBounds(Targets(job.p.cmds[j]), |dev|)
    ensures Gather(dev', Targets(job.p.cmds[j])) == Gather(dev, Targets(job.p.cmds[j]))
  {
    CommandBounds(job.p.cmds[j], |job.img|);
    TargetsApart(job.p, job.img, i, j);
    GatherUnchanged(dev, dev', Targets(job.p.cmds[j]));
  }

  lemma ReadsKept(job: Job, dev: seq<Block>, dev': seq<Block>, i: nat, j: nat)
    requires Good(job) && |dev| == |job.img| && j < |job.p.cmds| && i <= j
    requires i == j ==> !Overlapping(job.p.cmds[i])
    requires WritesOnly(job, dev, dev', i)
    ensures InBounds(Reads(job.p.cmds[j]), |dev|)
    ensures Gather(dev', Reads(job.p.cmds[j])) == Gather(dev, Reads(job.p.cmds[j]))
  {
    var c := job.p.cmds[j];
    CommandBounds(c, |job.img|);
    forall b | b in Reads(c) ensures dev'[b] == dev[b] {
      if i == j && IsTransfer(c) { ApartWhenNotOverlapping(c, |job.img|, b); }
    }
    GatherUnchanged(dev, dev', Reads(c));
  }

  lemma UntouchedKept(job: Job, dev: seq<Block>, dev': seq<Block>, i: nat, k: nat)
    requires |dev| == |job.img| && i < k <= |job.p.cmds| && WritesOnly(job, dev, dev', i) && Untouched(job, dev, k)
    ensures Untouched(job, dev', k)
  {
    forall b | 0 <= b < |dev'| && !WrittenBefore(job.p, k, b) ensures dev'[b] == job.img[b] {
      assert b !in Targets(job.p.cmds[i]);
    }
  }

  /** Writing the targets of the frontier command (backed up if it reads them), or rewriting those
      of an earlier fill, keeps the invariant at every intermediate state. */
  lemma WriteKeepsCore(job: Job, d: Disk, d': Disk, k: nat, i: nat)
    requires Core(job, d, k) && i <= k && i < |job.p.cmds| && WritesOnly(job, d.dev, d'.dev, i) && d'.stash == d.stash
    requires if i < k then IsFill(job.p.cmds[i]) else !Overlapping(job.p.cmds[i]) || Backed(job, d.stash, i)
    ensures Core(job, d', k)
  {
    forall j | 0 <= j < k && IsTransfer(job.p.cmds[j]) ensures Done(job, d'.dev, j) {
      assert Done(job, d.dev, j);
      TargetsKept(job, d.dev, d'.dev, i, j);
    }
    UntouchedKept(job, d.dev, d'.dev, i, Next(job, k));
    if k < |job.p.cmds| && !Backed(job, d.stash, k) {
      ReadsKept(job, d.dev, d'.dev, i, k);
    }
  }

  lemma WriteKeepsFilled(job: Job, dev: seq<Block>, dev': seq<Block>, start: nat, n: nat, i: nat)
    requires Good(job) && |dev| == |job.img| && start <= |job.p.cmds| && n <= i < |job.p.cmds|
    requires WritesOnly(job, dev, dev', i) && Filled(job, dev, start, n)
    ensures Filled(job, dev', start, n)
  {
    forall j | 0 <= j < n && IsFill(job.p.cmds[j]) ensures Holds(job, dev', j, Fill(job, start, j)) {
      assert Holds(job, dev, j, Fill(job, start, j));
      TargetsKept(job, dev, dev', i, j);
    }
  }

  lemma AdvanceTransfers(job: Job, dev: seq<Block>, k: nat)
    requires Good(job) && k < |job.p.cmds| && |dev| == |job.img| && TransfersDone(job, dev, k)
    requires IsTransfer(job.p.cmds[k]) ==> Done(job, dev, k)
    ensures TransfersDone(job, dev, k + 1)
  {
    hide Good, Done;
  }

  lemma AdvanceUntouched(job: Job, dev: seq<Block>, k: nat)
    requires |dev| == |job.img| && k < |job.p.cmds| && Untouched(job, dev, k + 1)
    ensures Untouched(job, dev, Next(job, k + 1))
  {
    forall b | 0 <= b < |dev| && !WrittenBefore(job.p, Next(job, k + 1), b) ensures dev[b] == job.img[b] {
      assert !WrittenBefore(job.p, k + 1, b);
    }
  }

  lemma AdvanceStashes(job: Job, stash: map<Digest, seq<Block>>, k: nat)
    requires k < |job.p.cmds| && StashesKept(job, stash, k)
    requires job.p.cmds[k].Stash? ==> job.p.cmds[k].id in stash
    ensures StashesKept(job, stash, k + 1)
  {
  }

  /** The frontier moves past a completed command, and the next source is intact. */
  lemma Advance(job: Job, d: Disk, k: nat)
    requires Core(job, d, k) && k < |job.p.cmds|
    requires IsTransfer(job.p.cmds[k]) ==> Done(job, d.dev, k)
    requires job.p.cmds[k].Stash? ==> job.p.cmds[k].id in d.stash
    ensures Clean(job, d, k + 1)
  {
    hide Good, Done, TransfersDone, Untouched, Honest, StashesKept, Intact, Backed;
    AdvanceTransfers(job, d.dev, k);
    AdvanceUntouched(job, d.dev, k);
    AdvanceStashes(job, d.stash, k);
    if k + 1 < |job.p.cmds| {
      UntouchedIsIntact(job, d.dev, k + 1, k + 1);
    }
  }

  /** An honest stash file may be added at any time. */
  lemma AddStashKeepsCore(job: Job, d: Disk, k: nat, id: Digest)
    requires Core(job, d, k)
    ensures Core(job, d.(stash := d.stash[id := id.content]), k)
    ensures Clean(job, d, k) ==> Clean(job, d.(stash := d.stash[id := id.content]), k)
  {
  }

  /** A stash file that no remaining command uses may be removed, unless it backs the frontier. */
  lemma RemoveStashKeepsCore(job: Job, d: Disk, k: nat, id: Digest)
    requires Core(job, d, k)
    requires forall s, u ::
               0 <= s < k && k <= u < |job.p.cmds| && job.p.cmds[s].Stash? && Uses(job.p.cmds[u], job.p.cmds[s].id) ==>
                 job.p.cmds[s].id != id
    requires k < |job.p.cmds| ==> Intact(job, d.dev, k) || (Backed(job, d.stash, k) && id != SourceHash(job.p.cmds[k]))
    ensures Core(job, d.(stash := d.stash - {id}), k)
    ensures Clean(job, d, k) ==> Clean(job, d.(stash := d.stash - {id}), k)
  {
  }

  /** Executing a `free` at or before the frontier. */
  lemma FreeKeepsCore(job: Job, d: Disk, k: nat, f: nat)
    requires Core(job, d, k) && f <= k && f < |job.p.cmds| && job.p.cmds[f].Free?
    ensures Core(job, d.(stash := d.stash - {job.p.cmds[f].id}), k)
  {
    var id := job.p.cmds[f].id;
    forall s, u | 0 <= s < k && k <= u < |job.p.cmds| && job.p.cmds[s].Stash? && Uses(job.p.cmds[u], job.p.cmds[s].id)
      ensures job.p.cmds[s].id != id
    {
    }
    var s :| 0 <= s < f && job.p.cmds[s].Stash? && job.p.cmds[s].id == id;
    RemoveStashKeepsCore(job, d, k, id);
  }

  /** Once everything is complete nothing in the stash is needed. */
  lemma FinishedKeepsCore(job: Job, d: Disk, d': Disk)
    requires Core(job, d, |job.p.cmds|) && d'.dev == d.dev && d'.stash.Keys <= d.stash.Keys && Honest(d'.stash)
    ensures Core(job, d', |job.p.cmds|)
  {
  }

  /** The device of a completed run is the one-pass device exactly when skipping was harmless. */
  lemma CompletedDevice(job: Job, d: Disk, start: nat)
    requires Core(job, d, |job.p.cmds|) && start <= |job.p.cmds| && Filled(job, d.dev, start, |job.p.cmds|)
    ensures d.dev == RefRun(job.p, job.img, |job.p.cmds|).dev <==> Harmless(job, start)
  {
    var n := |job.p.cmds|;
    if Harmless(job, start) {
      forall i | 0 <= i < n && IsWriter(job.p.cmds[i])
        ensures InBounds(Targets(job.p.cmds[i]), |d.dev|)
                && Gather(d.dev, Targets(job.p.cmds[i])) == Want(job.p, job.img, i)
      {
        CommandBounds(job.p.cmds[i], |job.img|);
        if IsTransfer(job.p.cmds[i]) {
          assert Done(job, d.dev, i);
        } else {
          assert Holds(job, d.dev, i, Fill(job, start, i));
        }
      }
      RefIsDetermined(job.p, job.img, d.dev);
    }
    if d.dev == RefRun(job.p, job.img, n).dev {
      forall j | start <= j < n && job.p.cmds[j].New? ensures Fill(job, start, j) == Want(job.p, job.img, j) {
        assert Holds(job, d.dev, j, Fill(job, start, j));
        RefWritten(job.p, job.img, n, j);
      }
    }
  }

  // ---------- loading the source of a command ----------

  ghost predicate OriginsWithin(origin: map<Digest, seq<Range>>, blocks: nat) {
    forall id :: id in origin ==> Within(origin[id], blocks)
  }

  /** What LoadStash (without verification) yields: in a dry run the remembered source blocks if
      there are any, provided they still have the right hash; otherwise the stash file. */
  function Lookup(d: Disk, origin: map<Digest, seq<Range>>, canwrite: bool, id: Digest): Option<seq<Block>>
    requires OriginsWithin(origin, |d.dev|)
  {
    if !canwrite && id in origin then
      ExpandWithin(origin[id], |d.dev|);
      var content := Gather(d.dev, Expand(origin[id]));
      if Digest(content) == id then Some(content) else None
    else if id in d.stash then Some(d.stash[id])
    else None
  }

  ghost predicate RefsLoadable(d: Disk, origin: map<Digest, seq<Range>>, canwrite: bool, refs: seq<StashRef>)
    requires OriginsWithin(origin, |d.dev|)
  {
    forall i :: 0 <= i < |refs| ==> Lookup(d, origin, canwrite, refs[i].id) == Some(refs[i].id.content)
  }

  /** The stash table maps every id a list of references mentions to the content it is the hash of,
      which has the size of the referenced locations. */
  ghost predicate TableFits(table: map<Digest, seq<Block>>, refs: seq<StashRef>) {
    forall i :: 0 <= i < |refs| ==>
      refs[i].id in table && table[refs[i].id] == refs[i].id.content && |refs[i].id.content| == Total(refs[i].locs)
  }

  lemma {:induction false} PutStashesAgree(a: seq<Block>, b: seq<Block>, s: map<Digest, seq<Block>>,
                                           t: map<Digest, seq<Block>>, refs: seq<StashRef>, q: nat)
    requires |a| == |b| && q < |a| && (forall i :: 0 <= i < |refs| ==> Within(refs[i].locs, |a|))
    requires TableFits(s, refs) && TableFits(t, refs)
    requires a[q] == b[q] || FromStash(refs, q)
    ensures PutStashes(a, s, refs)[q] == PutStashes(b, t, refs)[q]
    decreases |refs|
  {
    if refs != [] {
      var r := refs[0];
      ExpandWithin(r.locs, |a|);
      var a1, b1 := PutStash(a, s, r), PutStash(b, t, r);
      if a[q] == b[q] || q in Expand(r.locs) {
        PutCovers(a, b, Expand(r.locs), r.id.content, q);
        assert a1[q] == b1[q];
      } else {
        var i :| 0 <= i < |refs| && q in Expand(refs[i].locs);
        assert refs[1..][i - 1] == refs[i];
      }
      PutStashesAgree(a1, b1, s, t, refs[1..], q);
    }
  }

  /** With an intact source and the right stash contents, assembling gives the one-pass source,
      whatever the buffer held before. */
  lemma AssembledRight(job: Job, dev: seq<Block>, i: nat, buf: seq<Block>, table: map<Digest, seq<Block>>)
    requires Good(job) && |dev| == |job.img| && i < |job.p.cmds| && IsTransfer(job.p.cmds[i])
    requires Intact(job, dev, i)
    requires WellFormedCommand(job.p.cmds[i], |job.img|)
    requires |buf| == job.p.cmds[i].source.count && TableFits(table, job.p.cmds[i].source.stashes)
    ensures Assemble(buf, dev, table, job.p.cmds[i].source)
         == SourceContent(job.p.cmds[i], RefRun(job.p, job.img, i))
  {
    var c, r := job.p.cmds[i], RefRun(job.p, job.img, i);
    TransferFacts(job, i);
    RefReadsOriginal(job.p, job.img, i);
    RefTableFits(job, i);
    SameAssembly(buf, dev, table, Blank(c.source.count), r.dev, r.table, c.source);
  }

  lemma RefTableFits(job: Job, i: nat)
    requires Good(job) && i < |job.p.cmds| && IsTransfer(job.p.cmds[i])
    ensures TableFits(RefRun(job.p, job.img, i).table, job.p.cmds[i].source.stashes)
  {
    var refs, table := job.p.cmds[i].source.stashes, RefRun(job.p, job.img, i).table;
    TransferFacts(job, i);
    forall n | 0 <= n < |refs|
      ensures refs[n].id in table && table[refs[n].id] == refs[n].id.content
              && |refs[n].id.content| == Total(refs[n].locs)
    {
      RefTable(job.p, job.img, i, refs[n].id);
    }
  }

  lemma SameAssembly(buf: seq<Block>, dev: seq<Block>, table: map<Digest, seq<Block>>,
                     buf': seq<Block>, dev': seq<Block>, table': map<Digest, seq<Block>>, s: Source)
    requires |dev'| == |dev| && WellFormedSource(s, |dev|) && |buf| == |buf'| == s.count && Complete(s)
    requires InBounds(Expand(s.src), |dev|) && Gather(dev, Expand(s.src)) == Gather(dev', Expand(s.src))
    requires TableFits(table, s.stashes) && TableFits(table', s.stashes)
    ensures Assemble(buf, dev, table, s) == Assemble(buf', dev', table', s)
  {
    var x, y := PutDevice(buf, dev, s), PutDevice(buf', dev', s);
    forall q | 0 <= q < s.count ensures x[q] == y[q] || FromStash(s.stashes, q) {
      SameDevicePart(buf, dev, buf', dev', s, q);
    }
    var u, v := Assemble(buf, dev, table, s), Assemble(buf', dev', table', s);
    forall q | 0 <= q < s.count ensures u[q] == v[q] {
      PutStashesAgree(x, y, table, table', s.stashes, q);
    }
  }

  lemma SameDevicePart(buf: seq<Block>, dev: seq<Block>, buf': seq<Block>, dev': seq<Block>, s: Source, q: nat)
    requires |dev'| == |dev| && WellFormedSource(s, |dev|) && |buf| == |buf'| == s.count && q < s.count && Complete(s)
    requires InBounds(Expand(s.src), |dev|) && Gather(dev, Expand(s.src)) == Gather(dev', Expand(s.src))
    ensures PutDevice(buf, dev, s)[q] == PutDevice(buf', dev', s)[q] || FromStash(s.stashes, q)
  {
    ExpandWithin(s.src, |dev|);
    ExpandWithin(s.locs, s.count);
    var packed := Gather(dev, Expand(s.src));
    if s.locs != [] {
      if q in Expand(s.locs) {
        PutCovers(buf, buf', Expand(s.locs), packed, q);
      }
    } else if s.stashes == [] {
      assert PutDevice(buf, dev, s) == packed + buf[|packed|..];
      assert PutDevice(buf', dev', s) == packed + buf'[|packed|..];
    } else {
      assert q !in Expand(s.locs);
    }
  }

  // ---------- the two kinds of run ----------

  /** Between two commands of an update that skipped everything before `start`. */
  ghost predicate Running(job: Job, d: Disk, k: nat, start: nat, i: nat) {
    && Core(job, d, k) && IndexSane(job, d.last, k) && start <= |job.p.cmds| && i <= k
    && Filled(job, d.dev, start, i)
    && (d.last.Some? ==> d.last.value < i)
  }

  /** Anywhere within command i of such an update. */
  ghost predicate Interrupted(job: Job, d: Disk, k: nat, start: nat, i: nat) {
    && Core(job, d, k) && IndexSane(job, d.last, k) && start <= |job.p.cmds| && i <= k
    && Filled(job, d.dev, start, i)
    && (d.last.Some? ==> d.last.value <= i)
  }

  lemma InterruptedIsResumable(job: Job, d: Disk, k: nat, start: nat, i: nat)
    requires Interrupted(job, d, k, start, i) && Harmless(job, start)
    ensures Resumable(job, d, k)
  {
    var n := |job.p.cmds|;
    if d.last.Some? {
      forall j | 0 <= j < d.last.value && IsFill(job.p.cmds[j]) ensures Holds(job, d.dev, j, Fill(job, n, j)) {
        assert Holds(job, d.dev, j, Fill(job, start, j));
        HarmlessFill(job, start, j);
      }
    }
  }

  lemma FilledToIndex(job: Job, d: Disk)
    requires Good(job) && |d.dev| == |job.img| && Settled(job, d) && d.last.Some?
    requires 0 <= d.last.value < |job.p.cmds| && !IsFill(job.p.cmds[d.last.value])
    ensures Filled(job, d.dev, d.last.value + 1, d.last.value + 1)
  {
    hide Guaranteed, Holds;
    var l, n := d.last.value, |job.p.cmds|;
    forall j | 0 <= j < l + 1 && IsFill(job.p.cmds[j]) ensures Holds(job, d.dev, j, Fill(job, l + 1, j)) {
      assert j < l;
      assert Holds(job, d.dev, j, Fill(job, n, j));
    }
  }

  /** Where the update after a dry run starts, given the index the dry run left. */
  function StartOf(last: Option<int>): int {
    if last.Some? then last.value + 1 else 0
  }

  /** After a dry run has confirmed the transfers up to the saved index, the frontier is past it. */
  lemma StartAfterIndex(job: Job, d: Disk, k: nat) returns (k': nat)
    requires Resumable(job, d, k)
    requires d.last.Some? && d.last.value == k && IsTransfer(job.p.cmds[k]) ==> Done(job, d.dev, k)
    ensures StartOf(d.last) >= 0 && Running(job, d, k', StartOf(d.last), StartOf(d.last))
  {
    hide Good, Done, Filled, Settled, Core;
    k' := k;
    if d.last.Some? {
      assert Core(job, d, k);
      if d.last.value == k {
        CoreParts(job, d, k);
        Advance(job, d, k);
        ClipClean(job, d, k + 1);
        k' := k + 1;
      }
      CoreParts(job, d, k);
      FilledToIndex(job, d);
    } else {
      CoreParts(job, d, k);
      NothingFilled(job, d.dev);
    }
  }

  lemma NothingFilled(job: Job, dev: seq<Block>)
    requires Good(job) && |dev| == |job.img|
    ensures Filled(job, dev, 0, 0)
  {
  }

  lemma ClipClean(job: Job, d: Disk, k: nat)
    requires Clean(job, d, k)
    ensures Core(job, d, k)
  {
  }

  lemma CoreParts(job: Job, d: Disk, k: nat)
    requires Core(job, d, k)
    ensures Good(job) && k <= |job.p.cmds| && |d.dev| == |job.img| && Honest(d.stash)
    ensures WellFormed(job.p, |job.img|)
  {
  }

  // ---------- the dry run ----------

  /** The remembered stash sources after i commands of a dry run over disk d with frontier k: every
      id a pending command needs is either remembered and intact, or on disk. */
  ghost predicate OriginsKept(job: Job, d: Disk, origin: map<Digest, seq<Range>>, k: nat, i: nat)
    requires Good(job) && |d.dev| == |job.img| && i <= |job.p.cmds|
  {
    && (forall id :: id in origin ==> OriginOf(job, origin[id], id, i))
    && (forall s, u ::
          0 <= s < i <= u < |job.p.cmds| && k <= u && job.p.cmds[s].Stash? && Uses(job.p.cmds[u], job.p.cmds[s].id) ==>
            if job.p.cmds[s].id in origin then Intact(job, d.dev, s) else job.p.cmds[s].id in d.stash)
  }

  ghost predicate OriginOf(job: Job, ranges: seq<Range>, id: Digest, i: nat)
    requires i <= |job.p.cmds|
  {
    exists s :: 0 <= s < i && job.p.cmds[s].Stash? && job.p.cmds[s].id == id && job.p.cmds[s].src == ranges
  }

  lemma OriginsAreWithin(job: Job, d: Disk, origin: map<Digest, seq<Range>>, k: nat, i: nat)
    requires Good(job) && |d.dev| == |job.img| && i <= |job.p.cmds| && OriginsKept(job, d, origin, k, i)
    ensures OriginsWithin(origin, |d.dev|)
  {
    forall id | id in origin ensures Within(origin[id], |d.dev|) {
      var s :| 0 <= s < i && job.p.cmds[s].Stash? && job.p.cmds[s].id == id && job.p.cmds[s].src == origin[id];
      assert WellFormedCommand(job.p.cmds[s], |job.img|);
    }
  }

  lemma OriginOfGrows(job: Job, ranges: seq<Range>, id: Digest, i: nat)
    requires i < |job.p.cmds| && OriginOf(job, ranges, id, i)
    ensures OriginOf(job, ranges, id, i + 1)
  {
  }

  /** A command that is neither stash nor free leaves the bookkeeping alone. */
  lemma OriginsPassCommand(job: Job, d: Disk, origin: map<Digest, seq<Range>>, k: nat, i: nat)
    requires Good(job) && |d.dev| == |job.img| && i < |job.p.cmds| && OriginsKept(job, d, origin, k, i)
    requires !job.p.cmds[i].Stash?
    ensures OriginsKept(job, d, origin, k, i + 1)
  {
    hide Good, Intact;
    forall id | id in origin ensures OriginOf(job, origin[id], id, i + 1) { OriginOfGrows(job, origin[id], id, i); }
  }

  lemma FreeIsLate(job: Job, f: nat, u: nat)
    requires Good(job) && f < |job.p.cmds| && job.p.cmds[f].Free? && u < |job.p.cmds|
             && Uses(job.p.cmds[u], job.p.cmds[f].id)
    ensures u < f
  {
  }

  lemma OriginsPassFree(job: Job, d: Disk, origin: map<Digest, seq<Range>>, k: nat, i: nat)
    requires Good(job) && |d.dev| == |job.img| && i < |job.p.cmds| && OriginsKept(job, d, origin, k, i)
    requires job.p.cmds[i].Free?
    ensures OriginsKept(job, d, origin - {job.p.cmds[i].id}, k, i + 1)
  {
    hide Good, Intact;
    var after := origin - {job.p.cmds[i].id};
    forall id | id in after ensures OriginOf(job, after[id], id, i + 1) { OriginOfGrows(job, origin[id], id, i); }
    forall s, u | 0 <= s < i + 1 && i + 1 <= u < |job.p.cmds| && k <= u && job.p.cmds[s].Stash?
    && Uses(job.p.cmds[u], job.p.cmds[s].id)
      ensures if job.p.cmds[s].id in after then Intact(job, d.dev, s) else job.p.cmds[s].id in d.stash
    {
      if job.p.cmds[s].id == job.p.cmds[i].id { FreeIsLate(job, i, u); }
    }
  }

  lemma StashIdsDiffer(job: Job, s: nat, t: nat)
    requires Good(job) && s < |job.p.cmds| && t < |job.p.cmds| && job.p.cmds[s].Stash? && job.p.cmds[t].Stash?
    requires job.p.cmds[s].id == job.p.cmds[t].id
    ensures s == t
  {
  }

  /** A stash id is new when its command is reached. */
  lemma OriginIsNew(job: Job, d: Disk, origin: map<Digest, seq<Range>>, k: nat, i: nat)
    requires Good(job) && |d.dev| == |job.img| && i < |job.p.cmds| && OriginsKept(job, d, origin, k, i)
    requires job.p.cmds[i].Stash?
    ensures job.p.cmds[i].id !in origin
  {
    hide Good, Intact;
    if job.p.cmds[i].id in origin {
      var s :| 0 <= s < i && job.p.cmds[s].Stash? && job.p.cmds[s].id == job.p.cmds[i].id;
      StashIdsDiffer(job, s, i);
    }
  }

  /** The stash command of a dry run: either the file is there, or the source is remembered. */
  lemma OriginsPassStash(job: Job, d: Disk, origin: map<Digest, seq<Range>>, k: nat, i: nat)
    requires Core(job, d, k) && i < |job.p.cmds| && OriginsKept(job, d, origin, k, i)
    requires job.p.cmds[i].Stash?
    ensures job.p.cmds[i].id in d.stash ==> OriginsKept(job, d, origin, k, i + 1)
    ensures job.p.cmds[i].id !in d.stash ==>
              OriginsKept(job, d, origin[job.p.cmds[i].id := job.p.cmds[i].src], k, i + 1)
  {
    hide Good, Intact, Core;
    CoreParts(job, d, k);
    OriginIsNew(job, d, origin, k, i);
    var c := job.p.cmds[i];
    var after := if c.id in d.stash then origin else origin[c.id := c.src];
    forall id | id in after ensures OriginOf(job, after[id], id, i + 1) {
      if id in origin { OriginOfGrows(job, origin[id], id, i); }
    }
    forall s, u | 0 <= s < i + 1 && i + 1 <= u < |job.p.cmds| && k <= u && job.p.cmds[s].Stash?
    && Uses(job.p.cmds[u], job.p.cmds[s].id)
      ensures if job.p.cmds[s].id in after then Intact(job, d.dev, s) else job.p.cmds[s].id in d.stash
    {
      if s == i {
        StashAvailable(job, d, k, i, u);
      } else if job.p.cmds[s].id == c.id {
        StashIdsDiffer(job, s, i);
      }
    }
  }

  /** A stash that a pending command uses is on disk, or its own source can still be read. */
  lemma StashAvailable(job: Job, d: Disk, k: nat, s: nat, u: nat)
    requires Core(job, d, k) && s < u < |job.p.cmds| && k <= u && job.p.cmds[s].Stash?
             && Uses(job.p.cmds[u], job.p.cmds[s].id)
    ensures job.p.cmds[s].id in d.stash || (k <= s && Intact(job, d.dev, s))
  {
    hide Good, Intact;
    if k <= s {
      LaterIsIntact(job, d, k, s);
    }
  }

  /** Every command after the frontier, and a frontier that cannot spoil its source, can be read. */
  lemma LaterIsIntact(job: Job, d: Disk, k: nat, i: nat)
    requires Core(job, d, k) && k <= i < |job.p.cmds| && (i == k ==> !Overlapping(job.p.cmds[k]))
    ensures Intact(job, d.dev, i)
  {
    if i > k {
      UntouchedIsIntact(job, d.dev, k + 1, i);
    } else {
      NonOverlappingIntact(job, d.dev, k);
    }
  }

  lemma StashedBefore(job: Job, u: nat, id: Digest) returns (s: nat)
    requires Good(job) && u < |job.p.cmds| && Uses(job.p.cmds[u], id)
    ensures s < u && job.p.cmds[s].Stash? && job.p.cmds[s].id == id
  {
    s :| 0 <= s < u && job.p.cmds[s].Stash? && job.p.cmds[s].id == id;
  }

  /** The references of a pending command load in a dry run. */
  lemma RefsLoadInDryRun(job: Job, d: Disk, origin: map<Digest, seq<Range>>, k: nat, i: nat)
    requires Core(job, d, k) && k <= i < |job.p.cmds| && OriginsKept(job, d, origin, k, i)
    requires IsTransfer(job.p.cmds[i])
    ensures OriginsWithin(origin, |d.dev|)
    ensures RefsLoadable(d, origin, false, job.p.cmds[i].source.stashes)
  {
    OriginsAreWithin(job, d, origin, k, i);
    var refs := job.p.cmds[i].source.stashes;
    forall n | 0 <= n < |refs| ensures Lookup(d, origin, false, refs[n].id) == Some(refs[n].id.content) {
      assert Uses(job.p.cmds[i], refs[n].id);
      RefLoadsInDryRun(job, d, origin, k, i, refs[n].id);
    }
  }

  lemma RefLoadsInDryRun(job: Job, d: Disk, origin: map<Digest, seq<Range>>, k: nat, i: nat, id: Digest)
    requires Core(job, d, k) && k <= i < |job.p.cmds| && OriginsKept(job, d, origin, k, i)
    requires Uses(job.p.cmds[i], id) && OriginsWithin(origin, |d.dev|)
    ensures Lookup(d, origin, false, id) == Some(id.content)
  {
    hide Guaranteed, WellFormed, TransfersDone, Untouched, StashesKept;
    var s := StashedBefore(job, i, id);
    if id in origin {
      var t :| 0 <= t < i && job.p.cmds[t].Stash? && job.p.cmds[t].id == id && job.p.cmds[t].src == origin[id];
      StashIdsDiffer(job, s, t);
      StashFacts(job, s);
      assert Intact(job, d.dev, s);
    }
  }

  /** The references of the frontier command load in an update. */
  lemma RefsLoadInUpdate(job: Job, d: Disk, origin: map<Digest, seq<Range>>, k: nat)
    requires Core(job, d, k) && k < |job.p.cmds| && IsTransfer(job.p.cmds[k]) && OriginsWithin(origin, |d.dev|)
    ensures RefsLoadable(d, origin, true, job.p.cmds[k].source.stashes)
  {
    hide Guaranteed, WellFormed, TransfersDone, Untouched;
    var refs := job.p.cmds[k].source.stashes;
    forall n | 0 <= n < |refs| ensures Lookup(d, origin, true, refs[n].id) == Some(refs[n].id.content) {
      assert Uses(job.p.cmds[k], refs[n].id);
      var s := StashedBefore(job, k, refs[n].id);
    }
  }

  // ---------- executing one command ----------

  lemma OverlapHashIsNoStashId(job: Job, c: nat, s: nat)
    requires Good(job) && c < |job.p.cmds| && s < |job.p.cmds| && job.p.cmds[s].Stash? && Overlapping(job.p.cmds[c])
    ensures job.p.cmds[s].id != SourceHash(job.p.cmds[c])
  {
  }

  /** A transfer before the frontier is recognised by its target hash, and nothing else is. */
  lemma DoneIsRecognised(job: Job, dev: seq<Block>, i: nat)
    requires Good(job) && |dev| == |job.img| && i < |job.p.cmds| && IsTransfer(job.p.cmds[i])
    ensures InBounds(Targets(job.p.cmds[i]), |dev|)
    ensures Done(job, dev, i) <==> Digest(Gather(dev, Targets(job.p.cmds[i]))) == TargetHash(job.p.cmds[i])
  {
    CommandBounds(job.p.cmds[i], |job.img|);
    TransferFacts(job, i);
  }

  lemma NotDoneIsPending(job: Job, d: Disk, k: nat, i: nat)
    requires Core(job, d, k) && i < |job.p.cmds| && IsTransfer(job.p.cmds[i]) && !Done(job, d.dev, i)
    ensures k <= i
  {
  }

  /** The source of a pending transfer is intact, or it is the frontier and backed up; and its stash
      references load. */
  lemma PendingSource(job: Job, d: Disk, origin: map<Digest, seq<Range>>, canwrite: bool, k: nat, i: nat)
    requires Core(job, d, k) && k <= i < |job.p.cmds| && IsTransfer(job.p.cmds[i]) && OriginsWithin(origin, |d.dev|)
    requires if canwrite then i == k else OriginsKept(job, d, origin, k, i)
    ensures RefsLoadable(d, origin, canwrite, job.p.cmds[i].source.stashes)
    ensures Intact(job, d.dev, i) || (i == k && Backed(job, d.stash, i))
  {
    hide Good, TransfersDone, Untouched, StashesKept, Honest, Intact, Backed, RefsLoadable, OriginsKept, Lookup;
    if canwrite {
      RefsLoadInUpdate(job, d, origin, k);
    } else {
      RefsLoadInDryRun(job, d, origin, k, i);
      if i > k { LaterIsIntact(job, d, k, i); }
    }
  }

  /** In a dry run the backup of an overlapping transfer is looked up in the stash directory. */
  lemma BackupLoads(job: Job, d: Disk, origin: map<Digest, seq<Range>>, canwrite: bool, k: nat)
    requires Core(job, d, k) && k < |job.p.cmds| && Backed(job, d.stash, k) && OriginsWithin(origin, |d.dev|)
    requires canwrite || OriginsKept(job, d, origin, k, k)
    ensures var h := SourceHash(job.p.cmds[k]); Lookup(d, origin, canwrite, h) == Some(h.content)
  {
    hide Good, TransfersDone, Untouched, StashesKept, Intact;
    var h := SourceHash(job.p.cmds[k]);
    if !canwrite && h in origin {
      var s :| 0 <= s < k && job.p.cmds[s].Stash? && job.p.cmds[s].id == h;
      OverlapHashIsNoStashId(job, k, s);
    }
  }

  /** An intact source assembles to the content the list gives the hash of. */
  lemma IntactAssembles(job: Job, dev: seq<Block>, i: nat, stale: seq<Block>, table: map<Digest, seq<Block>>)
    requires Good(job) && |dev| == |job.img| && i < |job.p.cmds| && IsTransfer(job.p.cmds[i]) && Intact(job, dev, i)
    requires WellFormedCommand(job.p.cmds[i], |job.img|) && |stale| == job.p.cmds[i].source.count
    requires table == RefRun(job.p, job.img, i).table
    ensures TableFits(table, job.p.cmds[i].source.stashes)
    ensures Digest(Assemble(stale, dev, table, job.p.cmds[i].source)) == SourceHash(job.p.cmds[i])
  {
    RefTableFits(job, i);
    AssembledRight(job, dev, i, stale, table);
    TransferFacts(job, i);
  }

  lemma RunningIsInterrupted(job: Job, d: Disk, k: nat, start: nat, i: nat)
    requires Running(job, d, k, start, i)
    ensures Interrupted(job, d, k, start, i)
  {
  }

  lemma InterruptedIsHonest(job: Job, d: Disk, k: nat, start: nat, i: nat)
    requires Interrupted(job, d, k, start, i)
    ensures Honest(d.stash) && Good(job) && |d.dev| == |job.img| && i <= k <= |job.p.cmds|
  {
  }

  lemma RunningWithin(job: Job, d: Disk, k: nat, start: nat, i: nat)
    requires Running(job, d, k, start, i + 1)
    ensures Interrupted(job, d, k, start, i)
  {
    hide Core, Good, Holds;
  }

  lemma InterruptedAddStash(job: Job, d: Disk, k: nat, start: nat, i: nat, id: Digest)
    requires Interrupted(job, d, k, start, i)
    ensures Interrupted(job, d.(stash := d.stash[id := id.content]), k, start, i)
  {
    AddStashKeepsCore(job, d, k, id);
  }

  lemma InterruptedSaveIndex(job: Job, d: Disk, k: nat, start: nat, i: nat)
    requires Interrupted(job, d, k, start, i) && i < |job.p.cmds| && SavesIndex(job.p.cmds[i])
    requires i == k ==> IsTransfer(job.p.cmds[i])
    ensures Interrupted(job, d.(last := Some(i)), k, start, i)
  {
    WriteKeepsNothing(job, d, k, d.last, Some(i));
  }

  lemma WriteKeepsNothing(job: Job, d: Disk, k: nat, l: Option<int>, l': Option<int>)
    requires Core(job, d, k)
    ensures Core(job, d.(last := l'), k)
    ensures Clean(job, d, k) ==> Clean(job, d.(last := l'), k)
  {
  }

  lemma InterruptedWrite(job: Job, d: Disk, d': Disk, k: nat, start: nat, i: nat)
    requires Interrupted(job, d, k, start, i) && i < |job.p.cmds| && WritesOnly(job, d.dev, d'.dev, i)
    requires d'.stash == d.stash && d'.last == d.last
    requires if i < k then IsFill(job.p.cmds[i]) else !Overlapping(job.p.cmds[i]) || Backed(job, d.stash, i)
    ensures Interrupted(job, d', k, start, i)
  {
    hide Good, Core, Filled;
    CoreParts(job, d, k);
    WriteKeepsCore(job, d, d', k, i);
    WriteKeepsFilled(job, d.dev, d'.dev, start, i, i);
  }

  lemma FilledPastOther(job: Job, dev: seq<Block>, start: nat, i: nat)
    requires Good(job) && |dev| == |job.img| && i < |job.p.cmds| && start <= |job.p.cmds| && Filled(job, dev, start, i)
    requires IsFill(job.p.cmds[i]) ==> Holds(job, dev, i, Fill(job, start, i))
    ensures Filled(job, dev, start, i + 1)
  {
  }

  /** A completed command moves the run, and if need be the frontier, one further. */
  lemma CommandCompleted(job: Job, d: Disk, k: nat, start: nat, i: nat) returns (k': nat)
    requires Interrupted(job, d, k, start, i) && i < |job.p.cmds|
    requires i == k && IsTransfer(job.p.cmds[i]) ==> Done(job, d.dev, i)
    requires i == k && job.p.cmds[i].Stash? ==> job.p.cmds[i].id in d.stash
    requires IsFill(job.p.cmds[i]) ==> Holds(job, d.dev, i, Fill(job, start, i))
    ensures k' == if i == k then k + 1 else k
    ensures Running(job, d, k', start, i + 1)
    ensures i == k ==> Clean(job, d, k')
  {
    hide Good, Core, Filled, Done, Holds, Clean;
    CoreParts(job, d, k);
    FilledPastOther(job, d.dev, start, i);
    k' := k;
    if i == k {
      Advance(job, d, k);
      k' := k + 1;
      ClipClean(job, d, k');
    }
  }

  /** The temporary backup of an overlapping transfer may go once the transfer is complete. */
  lemma RemoveBackup(job: Job, d: Disk, k: nat, start: nat, i: nat)
    requires Running(job, d, k, start, i + 1) && Clean(job, d, k) && i < |job.p.cmds| && Overlapping(job.p.cmds[i])
    ensures Running(job, d.(stash := d.stash - {SourceHash(job.p.cmds[i])}), k, start, i + 1)
  {
    hide Good, Filled, TransfersDone, Untouched, StashesKept, Honest;
    forall s, u | 0 <= s < k && k <= u < |job.p.cmds| && job.p.cmds[s].Stash? && Uses(job.p.cmds[u], job.p.cmds[s].id)
      ensures job.p.cmds[s].id != SourceHash(job.p.cmds[i])
    {
      OverlapHashIsNoStashId(job, i, s);
    }
    RemoveStashKeepsCore(job, d, k, SourceHash(job.p.cmds[i]));
  }

  /** The stash command of an update: the source of the frontier command can be read and hashed. */
  lemma StashSourceMatches(job: Job, d: Disk, k: nat)
    requires Core(job, d, k) && k < |job.p.cmds| && job.p.cmds[k].Stash?
    ensures InBounds(Reads(job.p.cmds[k]), |d.dev|)
    ensures Digest(Gather(d.dev, Reads(job.p.cmds[k]))) == job.p.cmds[k].id
  {
    hide TransfersDone, Untouched, StashesKept, Honest, Backed, Guaranteed, WellFormed;
    LaterIsIntact(job, d, k, k);
    StashFacts(job, k);
  }

  lemma RunningSaveIndex(job: Job, d: Disk, k: nat, start: nat, i: nat)
    requires Running(job, d, k, start, i + 1) && i < k && i < |job.p.cmds| && SavesIndex(job.p.cmds[i])
    ensures Running(job, d.(last := Some(i)), k, start, i + 1)
  {
    WriteKeepsNothing(job, d, k, d.last, Some(i));
  }

  lemma InterruptedFree(job: Job, d: Disk, k: nat, start: nat, i: nat)
    requires Interrupted(job, d, k, start, i) && i < |job.p.cmds| && job.p.cmds[i].Free?
    ensures Interrupted(job, d.(stash := d.stash - {job.p.cmds[i].id}), k, start, i)
  {
    hide Good, Core, Filled;
    FreeKeepsCore(job, d, k, i);
    CoreParts(job, d, k);
  }

  /** A completely written fill holds what this run's stream position gives it. */
  lemma FillWritten(job: Job, dev: seq<Block>, start: nat, i: nat, data: seq<Block>)
    requires Good(job) && i < |job.p.cmds| && start <= |job.p.cmds| && IsFill(job.p.cmds[i]) && |dev| == |job.img|
    requires |data| == |Targets(job.p.cmds[i])| && InBounds(Targets(job.p.cmds[i]), |dev|)
    requires data == Fill(job, start, i)
    ensures Holds(job, Put(dev, Targets(job.p.cmds[i]), data), i, Fill(job, start, i))
  {
    TargetLength(job.p, job.img, i);
    GatherPut(dev, Targets(job.p.cmds[i]), data);
  }

  /** In a run from `start` the stream never runs short. */
  lemma StreamSuffices(job: Job, start: nat, i: nat)
    requires Good(job) && start <= i < |job.p.cmds| && job.p.cmds[i].New?
    ensures UsedBefore(job.p, start) <= UsedBefore(job.p, i)
    ensures var from, n := UsedBefore(job.p, i) - UsedBefore(job.p, start), Total(job.p.cmds[i].tgt);
            from + n <= |job.p.stream| && Fill(job, start, i) == job.p.stream[from..from + n]
  {
    hide Guaranteed, WellFormed, Want, UsedBefore, Total, RefRun;
    UsedGrows(job.p, start, i);
    NewFits(job, i);
    var from, n := UsedBefore(job.p, i) - UsedBefore(job.p, start), Total(job.p.cmds[i].tgt);
    assert from + n <= |job.p.stream|;
  }

  lemma NewFits(job: Job, i: nat)
    requires Good(job) && i < |job.p.cmds| && job.p.cmds[i].New?
    ensures UsedBefore(job.p, i) + Total(job.p.cmds[i].tgt) <= |job.p.stream|
  {
    hide Guaranteed;
    RefUsed(job, i);
    AccurateAt(job.p, job.img, i);
  }

  // ---------- whole runs ----------

  /** Every index an update may leave behind is harmless to resume from. */
  ghost predicate StreamSafe(job: Job)
    requires WellFormed(job.p, |job.img|)
  {
    forall l :: 0 <= l < |job.p.cmds| && SavesIndex(job.p.cmds[l]) ==> Harmless(job, l + 1)
  }

  /** A list never has `new` commands on both sides of a command that saves its index. */
  ghost predicate NewOnOneSide(p: Package) {
    forall l :: 0 <= l < |p.cmds| && SavesIndex(p.cmds[l]) ==>
      (forall i :: 0 <= i < l ==> !p.cmds[i].New?) || (forall j :: l < j < |p.cmds| ==> !p.cmds[j].New?)
  }

  lemma {:induction false} NoNewUsesNothing(p: Package, n: nat)
    requires n <= |p.cmds| && forall i :: 0 <= i < n ==> !p.cmds[i].New?
    ensures UsedBefore(p, n) == 0
  {
    if n > 0 { NoNewUsesNothing(p, n - 1); }
  }

  lemma OneSideIsSafe(job: Job)
    requires WellFormed(job.p, |job.img|) && NewOnOneSide(job.p)
    ensures StreamSafe(job)
  {
    forall l | 0 <= l < |job.p.cmds| && SavesIndex(job.p.cmds[l]) ensures Harmless(job, l + 1) {
      if forall j :: l < j < |job.p.cmds| ==> !job.p.cmds[j].New? {
      } else {
        assert forall i :: 0 <= i < l + 1 ==> !job.p.cmds[i].New?;
        NoneBeforeIsHarmless(job, l + 1);
      }
    }
  }

  lemma NoneBeforeIsHarmless(job: Job, start: nat)
    requires WellFormed(job.p, |job.img|) && start <= |job.p.cmds| && forall i :: 0 <= i < start ==> !job.p.cmds[i].New?
    ensures Harmless(job, start)
  {
    hide RefRun, UsedBefore, Total, WellFormed;
    NoNewUsesNothing(job.p, start);
    forall j | start <= j < |job.p.cmds| && job.p.cmds[j].New? ensures Fill(job, start, j) == Want(job.p, job.img, j) {
      RefUsed(job, j);
    }
  }

  /** The untouched device with no stash and no saved index. */
  lemma PristineIsResumable(job: Job)
    requires Good(job)
    ensures Resumable(job, Disk(job.img, map[], None), 0)
  {
    var d := Disk(job.img, map[], None);
    if 0 < |job.p.cmds| {
      CommandBounds(job.p.cmds[0], |job.img|);
    }
  }

  lemma ConfirmedStart(job: Job, d: Disk, k: nat)
    requires Resumable(job, d, k)
    ensures 0 <= StartOf(d.last) <= |job.p.cmds|
    ensures Good(job) && WellFormed(job.p, |job.img|) && |d.dev| == |job.img|
    ensures StreamSafe(job) ==> Harmless(job, StartOf(d.last))
  {
    hide Core, Settled, Good, Harmless;
    ResumableParts(job, d, k);
    if d.last.None? { FromStartHarmless(job); }
  }

  /** The device after a completed run, in terms of the one-pass run. */
  lemma CompletedRun(job: Job, d: Disk, k: nat, start: nat)
    requires Running(job, d, k, start, |job.p.cmds|)
    ensures k == |job.p.cmds|
    ensures d.dev == RefRun(job.p, job.img, |job.p.cmds|).dev <==> Harmless(job, start)
  {
    hide Good, Filled;
    CompletedDevice(job, d, start);
  }

  /** The dry run has seen that the transfers before i, up to the saved index, are complete. */
  ghost predicate ConfirmedUpTo(job: Job, dev: seq<Block>, saved: int, i: nat)
    requires Good(job) && i <= |job.p.cmds| && |dev| == |job.img|
  {
    forall j :: 0 <= j < i && j <= saved && IsTransfer(job.p.cmds[j]) ==> Done(job, dev, j)
  }

  /** Every transfer up to the saved index is complete. */
  ghost predicate IndexConfirmed(job: Job, d: Disk)
    requires Good(job) && |d.dev| == |job.img|
  {
    d.last.Some? ==> ConfirmedUpTo(job, d.dev, d.last.value, |job.p.cmds|)
  }

  lemma IndexDropped(job: Job, d: Disk, k: nat)
    requires Resumable(job, d, k)
    ensures Resumable(job, d.(last := None), k)
  {
    WriteKeepsNothing(job, d, k, d.last, None);
  }

  lemma ConfirmStep(job: Job, dev: seq<Block>, saved: int, i: nat)
    requires Good(job) && i < |job.p.cmds| && |dev| == |job.img| && ConfirmedUpTo(job, dev, saved, i)
    requires i <= saved && IsTransfer(job.p.cmds[i]) ==> Done(job, dev, i)
    ensures ConfirmedUpTo(job, dev, saved, i + 1)
  {
    hide Good, Done;
  }

  lemma ResumableParts(job: Job, d: Disk, k: nat)
    requires Resumable(job, d, k)
    ensures Core(job, d, k) && Good(job) && |d.dev| == |job.img| && k <= |job.p.cmds| && Honest(d.stash)
    ensures WellFormed(job.p, |job.img|)
    ensures d.last.Some? ==> 0 <= d.last.value < |job.p.cmds|
  {
  }

  lemma OriginsIgnoreIndex(job: Job, dev: seq<Block>, stash: map<Digest, seq<Block>>, l: Option<int>, l': Option<int>,
                           origin: map<Digest, seq<Range>>, k: nat, i: nat)
    requires Good(job) && |dev| == |job.img| && i <= |job.p.cmds| && OriginsKept(job, Disk(dev, stash, l), origin, k, i)
    ensures OriginsKept(job, Disk(dev, stash, l'), origin, k, i)
  {
    hide Good, Intact, OriginOf;
  }

  lemma ConfirmedFrontier(job: Job, d: Disk, k: nat)
    requires Resumable(job, d, k) && IndexConfirmed(job, d)
    ensures d.last.Some? && d.last.value == k && IsTransfer(job.p.cmds[k]) ==> Done(job, d.dev, k)
  {
    hide Core, Settled, Done;
    ResumableParts(job, d, k);
  }

  /** Removing stash files after the last command. */
  lemma FinishedRemovesStash(job: Job, d: Disk, stash: map<Digest, seq<Block>>, last: Option<int>, k: nat, start: nat)
    requires Running(job, d, k, start, |job.p.cmds|)
    requires stash.Keys <= d.stash.Keys && Honest(stash) && (last == d.last || last == None)
    ensures Interrupted(job, Disk(d.dev, stash, last), k, start, |job.p.cmds|)
    ensures last == None ==> Resumable(job, Disk(d.dev, stash, last), k)
  {
    hide Good, Filled, TransfersDone, Untouched, Intact;
    var d' := Disk(d.dev, stash, last);
    FinishedKeepsCore(job, d, d');
  }

  // ---------- a list with `new` on both sides of a saved index ----------

  /** Two `new` commands with a stash, which saves its index, between them. */
  function SplitNew(x: Block, a: Block, b: Block): Job {
    Job(Package([New([Range(0, 1)]), Stash(Digest([x]), [Range(2, 3)]), New([Range(1, 2)])], [a, b]), [x, x, x])
  }

  lemma OneBlock(n: nat)
    ensures Expand([Range(n, n + 1)]) == [n] && Total([Range(n, n + 1)]) == 1
  {
    var r := Range(n, n + 1);
    assert Interval(r) == [n];
    assert [r][1..] == [];
    assert [r] == [r] + [];
  }

  lemma SplitNewWellFormed(x: Block, a: Block, b: Block)
    ensures var job := SplitNew(x, a, b); WellFormed(job.p, |job.img|)
  {
  }

  lemma SplitNewCommands(x: Block, a: Block, b: Block)
    ensures var cmds := SplitNew(x, a, b).p.cmds;
            && Targets(cmds[0]) == [0] && Targets(cmds[1]) == [] && Targets(cmds[2]) == [1]
            && Reads(cmds[0]) == [] && Reads(cmds[1]) == [2] && Reads(cmds[2]) == []
  {
    OneBlock(0);
    OneBlock(1);
    OneBlock(2);
  }

  lemma SplitNewReadsBeforeWrites(x: Block, a: Block, b: Block)
    ensures ReadBeforeWrite(SplitNew(x, a, b).p)
  {
    hide Expand, Targets, Reads;
    SplitNewCommands(x, a, b);
  }

  lemma SplitNewStashes(x: Block, a: Block, b: Block)
    ensures StashDiscipline(SplitNew(x, a, b).p)
  {
    hide Expand, Covers;
  }

  /** The one-pass run of the list. */
  lemma SplitNewRun(x: Block, a: Block, b: Block)
    ensures var job := SplitNew(x, a, b);
            && WellFormed(job.p, |job.img|)
            && RefRun(job.p, job.img, 0) == Ref([x, x, x], map[], 0)
            && RefRun(job.p, job.img, 1) == Ref([a, x, x], map[], 1)
            && RefRun(job.p, job.img, 2) == Ref([a, x, x], map[Digest([x]) := [x]], 1)
  {
    hide Expand, Gather, Put;
    var job := SplitNew(x, a, b);
    SplitNewWellFormed(x, a, b);
    SplitNewCommands(x, a, b);
    OneBlock(0);
    OneBlock(2);
    PutOne(job.img, 0, a);
    var r0 := RefRun(job.p, job.img, 0);
    assert TargetContent(job.p.cmds[0], r0, job.p.stream) == [a];
    assert RefRun(job.p, job.img, 1) == RefStep(job.p.cmds[0], r0, job.p.stream);
    GatherOne([a, x, x], 2);
    assert RefRun(job.p, job.img, 2) == RefStep(job.p.cmds[1], RefRun(job.p, job.img, 1), job.p.stream);
  }

  lemma PutOne(dev: seq<Block>, at: nat, v: Block)
    requires at < |dev|
    ensures InBounds([at], |dev|) && Put(dev, [at], [v]) == dev[at := v]
  {
  }

  lemma GatherOne(dev: seq<Block>, at: nat)
    requires at < |dev|
    ensures InBounds([at], |dev|) && Gather(dev, [at]) == [dev[at]]
  {
  }

  lemma SplitNewIsGood(x: Block, a: Block, b: Block)
    ensures Good(SplitNew(x, a, b))
  {
    hide Expand, Gather, Put, RefRun, Targets, Reads, ReadBeforeWrite, StashDiscipline, WellFormed;
    var p, img := SplitNew(x, a, b).p, SplitNew(x, a, b).img;
    SplitNewRun(x, a, b);
    SplitNewReadsBeforeWrites(x, a, b);
    SplitNewStashes(x, a, b);
    OneBlock(0);
    OneBlock(1);
    OneBlock(2);
    GatherOne([a, x, x], 2);
    forall i | 0 <= i < |p.cmds|
      ensures WellFormedCommand(p.cmds[i], |img|) && Accurate(p.cmds[i], RefRun(p, img, i), p.stream) {
      WellFormedCommandAt(p, |img|, i);
      if i == 0 {
      } else if i == 1 {
      } else {
      }
    }
  }

  lemma WellFormedCommandAt(p: Package, blocks: nat, i: nat)
    requires WellFormed(p, blocks) && i < |p.cmds|
    ensures WellFormedCommand(p.cmds[i], blocks)
  {
  }

  lemma SplitNewFills(x: Block, a: Block, b: Block)
    ensures var job := SplitNew(x, a, b);
            && WellFormed(job.p, |job.img|)
            && Want(job.p, job.img, 0) == [a] && Want(job.p, job.img, 2) == [b] && Fill(job, 2, 2) == [a]
  {
    hide Expand, Gather, Put, RefRun, WellFormed;
    SplitNewRun(x, a, b);
    OneBlock(0);
    OneBlock(1);
    var p := SplitNew(x, a, b).p;
    assert UsedBefore(p, 0) == 0;
    assert UsedBefore(p, 1) == 1;
  }

  lemma SplitNewCore(x: Block, a: Block, b: Block)
    ensures Core(SplitNew(x, a, b), Disk([a, x, x], map[Digest([x]) := [x]], Some(1)), 2)
  {
    hide Expand, Put, RefRun, WellFormed, Guaranteed, Targets, Reads, Good;
    var job, dev := SplitNew(x, a, b), [a, x, x];
    SplitNewIsGood(x, a, b);
    SplitNewCommands(x, a, b);
    assert TransfersDone(job, dev, 2);
    assert 0 in Targets(job.p.cmds[0]) && WrittenBefore(job.p, 3, 0);
    assert Untouched(job, dev, Next(job, 2));
    GoodCommandBounds(job, 2);
    assert Gather(dev, []) == Gather(job.img, []);
    assert Intact(job, dev, 2);
  }

  lemma GoodCommandBounds(job: Job, i: nat)
    requires Good(job) && i < |job.p.cmds|
    ensures InBounds(Targets(job.p.cmds[i]), |job.img|) && InBounds(Reads(job.p.cmds[i]), |job.img|)
  {
    CommandBounds(job.p.cmds[i], |job.img|);
  }

  /** What an update of this list leaves after its stash command passes the dry run, and resuming
      from it is harmless only if the two slices of the stream are equal. */
  lemma SkippedNewBreaks(x: Block, a: Block, b: Block)
    ensures var job, d := SplitNew(x, a, b), Disk([a, x, x], map[Digest([x]) := [x]], Some(1));
            Resumable(job, d, 2) && IndexConfirmed(job, d) && (Harmless(job, StartOf(d.last)) <==> a == b)
  {
    hide Expand, Put, RefRun, WellFormed, Guaranteed, Targets, Reads, Good, Core, Fill, Want;
    var job, d := SplitNew(x, a, b), Disk([a, x, x], map[Digest([x]) := [x]], Some(1));
    SplitNewIsGood(x, a, b);
    SplitNewCore(x, a, b);
    SplitNewFills(x, a, b);
    SplitNewCommands(x, a, b);
    GoodCommandBounds(job, 0);
    GatherOne(d.dev, 0);
    FillBefore(job, 3, 0);
    assert Filled(job, d.dev, 3, 1);
    assert Harmless(job, 2) <==> Fill(job, 2, 2) == Want(job.p, job.img, 2);
  }

  lemma FillBefore(job: Job, start: nat, j: nat)
    requires WellFormed(job.p, |job.img|) && j < start <= |job.p.cmds|
    ensures Fill(job, start, j) == Want(job.p, job.img, j)
  {
  }
}
