/** Patching a whole partition, and patching it again after an interruption.

    A run is cut at a given point, or not at all, and the medium may store other bytes than it was
    given, which the read-back is there to find. */
module PartitionPatch {
  import opened Basics
  import opened RangeSets

  /** SHA-1, taken to be injective. */
  datatype Digest = Digest(content: seq<bv8>)

  /** A length and hash of a partition's possible contents. */
  datatype SizeHash = SizeHash(size: nat, hash: Digest)

  /** A patch and the hash of the source it is for; what it makes of a source, if it succeeds. */
  datatype Patch = Patch(source: Digest, knownFormat: bool, apply: seq<bv8> -> Option<seq<bv8>>)

  /** Where the power is cut: before anything is written, after so many bytes of the truncated backup, after
      so many bytes of the partition, or when only the backup remains to be removed. */
  datatype Fate = Steady | CutBefore | CutSave(n: nat) | CutWrite(n: nat) | CutUnlink

  /** What the medium stores at a position in an attempt when it is given a byte. */
  datatype Medium = Medium(store: (nat, nat, bv8) -> bv8)

  datatype Outcome = Zero | NonZero | Cut

  ghost predicate Faithful(m: Medium) {
    forall attempt, p, v :: m.store(attempt, p, v) == v
  }

  // ---------- loading ----------

  function InsertPair(p: SizeHash, ps: seq<SizeHash>): seq<SizeHash> {
    if ps == [] then [p]
    else if p.size <= ps[0].size then [p] + ps
    else [ps[0]] + InsertPair(p, ps[1..])
  }

  /** In order of increasing size. */
  function SortPairs(ps: seq<SizeHash>): seq<SizeHash> {
    if ps == [] then [] else InsertPair(ps[0], SortPairs(ps[1..]))
  }

  ghost predicate BySize(ps: seq<SizeHash>) {
    forall i, j :: 0 <= i < j < |ps| ==> ps[i].size <= ps[j].size
  }

  lemma {:induction false} InsertPairSorts(p: SizeHash, ps: seq<SizeHash>)
    requires BySize(ps)
    ensures BySize(InsertPair(p, ps)) && forall q :: q in InsertPair(p, ps) <==> q == p || q in ps
  {
    if ps != [] && p.size > ps[0].size {
      var rest, r := ps[1..], InsertPair(p, ps[1..]);
      InsertPairSorts(p, rest);
      forall j | 0 <= j < |r| ensures ps[0].size <= r[j].size {
        assert r[j] in r;
      }
      forall q ensures q in [ps[0]] + r <==> q == p || q in ps {
        assert ps == [ps[0]] + rest;
      }
    }
  }

  lemma {:induction false} SortPairsSorts(ps: seq<SizeHash>)
    ensures BySize(SortPairs(ps)) && forall q :: q in SortPairs(ps) <==> q in ps
  {
    if ps != [] {
      SortPairsSorts(ps[1..]);
      InsertPairSorts(ps[0], SortPairs(ps[1..]));
    }
  }

  /** The partition begins with contents of that length and hash. */
  predicate Matches(part: seq<bv8>, p: SizeHash) {
    p.size <= |part| && Digest(part[..p.size]) == p.hash
  }

  predicate MatchesSome(part: seq<bv8>, ps: seq<SizeHash>) {
    exists p :: p in ps && Matches(part, p)
  }

  predicate GoodName(ps: seq<SizeHash>) {
    ps != [] && forall p :: p in ps ==> p.size > 0
  }

  /** LoadPartitionContents: the shortest beginning of the partition that has one of the hashes. */
  method LoadPartitionContents(pairs0: seq<SizeHash>, part: seq<bv8>) returns (r: Option<seq<bv8>>)
    ensures r.Some? <==> GoodName(pairs0) && MatchesSome(part, pairs0)
    ensures r.Some? ==>
              SizeHash(|r.value|, Digest(r.value)) in pairs0 && |r.value| <= |part| && r.value == part[..|r.value|]
    ensures r.Some? ==> forall p :: p in pairs0 && Matches(part, p) ==> |r.value| <= p.size
  {
    if pairs0 == [] { return None; }
    var k := 0;
    while k < |pairs0|
      invariant 0 <= k <= |pairs0| && forall j :: 0 <= j < k ==> pairs0[j].size > 0
    {
      if pairs0[k].size == 0 {
        assert pairs0[k] in pairs0;
        return None;
      }
      k := k + 1;
    }
    var pairs := SortPairs(pairs0);
    SortPairsSorts(pairs0);
    var buffer: seq<bv8> := [];
    var i := 0;
    while i < |pairs|
      invariant 0 <= i <= |pairs| && |buffer| <= |part| && buffer == part[..|buffer|]
      invariant i < |pairs| ==> |buffer| <= pairs[i].size
      invariant forall j :: 0 <= j < i ==> !Matches(part, pairs[j])
    {
      var pair := pairs[i];
      assert pair in pairs;
      var next := pair.size - |buffer|;
      if next > |part| - |buffer| {
        NoneLonger(part, pairs, i);
        return None;
      }
      buffer := buffer + part[|buffer|..|buffer| + next];
      assert buffer == part[..pair.size];
      if Digest(buffer) == pair.hash {
        Shortest(part, pairs, i);
        return Some(buffer);
      }
      i := i + 1;
    }
    NoneLonger(part, pairs, i);
    return None;
  }

  lemma NoneLonger(part: seq<bv8>, pairs: seq<SizeHash>, i: nat)
    requires BySize(pairs) && i <= |pairs| && (i < |pairs| ==> pairs[i].size > |part|)
    requires forall j :: 0 <= j < i ==> !Matches(part, pairs[j])
    ensures forall p :: p in pairs ==> !Matches(part, p)
  {
  }

  lemma Shortest(part: seq<bv8>, pairs: seq<SizeHash>, i: nat)
    requires BySize(pairs) && i < |pairs| && forall j :: 0 <= j < i ==> !Matches(part, pairs[j])
    ensures forall p :: p in pairs && Matches(part, p) ==> pairs[i].size <= p.size
  {
    forall p | p in pairs && Matches(part, p) ensures pairs[i].size <= p.size {
      var j :| 0 <= j < |pairs| && pairs[j] == p;
    }
  }

  /** The first patch for the hash. */
  method FindMatchingPatch(hash: Digest, patches: seq<Patch>) returns (r: Option<nat>)
    ensures r.Some? ==> r.value < |patches| && patches[r.value].source == hash
    ensures r.Some? ==> forall j :: 0 <= j < r.value ==> patches[j].source != hash
    ensures r.Some? <==> HasPatch(hash, patches)
  {
    var i := 0;
    while i < |patches|
      invariant 0 <= i <= |patches| && forall j :: 0 <= j < i ==> patches[j].source != hash
    {
      if patches[i].source == hash { return Some(i); }
      i := i + 1;
    }
    return None;
  }

  ghost predicate HasPatch(hash: Digest, patches: seq<Patch>) {
    exists i :: 0 <= i < |patches| && patches[i].source == hash
  }

  // ---------- writing ----------

  /** The partition after the bytes of `data` have been given to the medium at `at`. */
  function Stored(m: Medium, attempt: nat, part: seq<bv8>, at: nat, data: seq<bv8>): (r: seq<bv8>)
    requires at + |data| <= |part|
    ensures |r| == |part|
  {
    part[..at] + seq(|data|, i requires 0 <= i < |data| => m.store(attempt, at + i, data[i])) + part[at + |data|..]
  }

  lemma StoredFaithful(m: Medium, attempt: nat, part: seq<bv8>, at: nat, data: seq<bv8>)
    requires Faithful(m) && at + |data| <= |part|
    ensures Stored(m, attempt, part, at, data) == part[..at] + data + part[at + |data|..]
  {
    var s := seq(|data|, i requires 0 <= i < |data| => m.store(attempt, at + i, data[i]));
    forall i | 0 <= i < |data| ensures s[i] == data[i] {
      assert m.store(attempt, at + i, data[i]) == data[i];
    }
    assert s == data;
  }

  /** Only the beginning of partition tgt may have changed. */
  ghost predicate OnlyFront(before: seq<seq<bv8>>, after: seq<seq<bv8>>, tgt: nat, len: nat) {
    && tgt < |after| == |before| && |after[tgt]| == |before[tgt]|
    && (forall j :: 0 <= j < |after| && j != tgt ==> after[j] == before[j])
    && (forall p :: len <= p < |after[tgt]| ==> after[tgt][p] == before[tgt][p])
  }

  lemma FrontTransitive(a: seq<seq<bv8>>, b: seq<seq<bv8>>, c: seq<seq<bv8>>, tgt: nat, len: nat)
    requires OnlyFront(a, b, tgt, len) && OnlyFront(b, c, tgt, len)
    ensures OnlyFront(a, c, tgt, len)
  {
  }

  lemma FrontSelf(a: seq<seq<bv8>>, tgt: nat, len: nat)
    requires tgt < |a|
    ensures OnlyFront(a, a, tgt, len)
  {
  }

  lemma FrontSizes(a: seq<seq<bv8>>, b: seq<seq<bv8>>, tgt: nat, len: nat)
    requires OnlyFront(a, b, tgt, len)
    ensures tgt < |a| == |b| && |a[tgt]| == |b[tgt]|
  {
  }

  /** A faithful medium holds the first n bytes of the data, and what was there before. */
  ghost predicate Holding(before: seq<bv8>, now: seq<bv8>, data: seq<bv8>, n: nat) {
    n <= |data| <= |before| && now == data[..n] + before[n..]
  }

  lemma HoldingMore(before: seq<bv8>, now: seq<bv8>, now': seq<bv8>, data: seq<bv8>, start: nat, after: nat)
    requires Holding(before, now, data, start) && start <= after <= |data|
    requires now' == now[..start] + data[start..after] + now[after..]
    ensures Holding(before, now', data, after)
  {
    assert data[..start] + data[start..after] == data[..after];
    assert now[after..] == before[after..];
    assert now[..start] == data[..start];
  }

  lemma HoldingAll(before: seq<bv8>, now: seq<bv8>, data: seq<bv8>)
    requires Holding(before, now, data, |data|)
    ensures |data| <= |now| && now[..|data|] == data
  {
  }

  lemma HoldingNone(before: seq<bv8>, data: seq<bv8>)
    requires |data| <= |before|
    ensures Holding(before, before, data, 0)
  {
  }

  const WRITE_MAX: nat := 0x10_0000
  const READ_SIZE: nat := 4096

  function PieceSize(rest: nat): nat {
    if rest > READ_SIZE then READ_SIZE else rest
  }

  // ---------- a patch job ----------

  /** Partitions and what their names say about their contents; the target is the whole new contents. */
  datatype Job = Job(src: nat, tgt: nat, srcName: seq<SizeHash>, tgtName: seq<SizeHash>, patches: seq<Patch>,
    target: seq<bv8>)

  /** Every listed source has a patch that makes the target; patching in place goes by one name. */
  ghost predicate Good(job: Job) {
    && job.target != [] && GoodName(job.srcName) && GoodName(job.tgtName)
    && SizeHash(|job.target|, Digest(job.target)) in job.tgtName
    && (job.src == job.tgt ==> job.srcName == job.tgtName)
    && (forall i :: 0 <= i < |job.patches| ==>
      job.patches[i].knownFormat && job.patches[i].apply(job.patches[i].source.content) == Some(job.target))
    && (forall p :: p in job.srcName ==>
      HasPatch(p.hash, job.patches) || (job.src == job.tgt && p.hash == Digest(job.target)))
  }

  ghost predicate Fitting(job: Job, parts: seq<seq<bv8>>) {
    job.src < |parts| && job.tgt < |parts| && |job.target| <= |parts[job.tgt]|
  }

  ghost predicate AtTarget(job: Job, parts: seq<seq<bv8>>) {
    job.tgt < |parts| && |job.target| <= |parts[job.tgt]| && parts[job.tgt][..|job.target|] == job.target
  }

  /** The partition holds one of the contents its name lists. */
  ghost predicate Readable(job: Job, parts: seq<seq<bv8>>) {
    job.src < |parts| && MatchesSome(parts[job.src], job.srcName)
  }

  ghost predicate CacheOk(job: Job, cache: Option<seq<bv8>>) {
    cache.Some? && HasPatch(Digest(cache.value), job.patches)
  }

  /** A run that is not interrupted will succeed. */
  ghost predicate Recoverable(job: Job, parts: seq<seq<bv8>>, cache: Option<seq<bv8>>) {
    Readable(job, parts) || (job.src == job.tgt && CacheOk(job, cache))
  }

  /** The target is one of the contents the name lists. */
  lemma TargetIsReadable(job: Job, parts: seq<seq<bv8>>)
    requires Good(job) && job.src == job.tgt && AtTarget(job, parts)
    ensures Readable(job, parts)
  {
    var p := SizeHash(|job.target|, Digest(job.target));
    assert p in job.srcName && Matches(parts[job.src], p);
  }

  lemma LoadedHasPatch(job: Job, m: seq<bv8>)
    requires Good(job) && SizeHash(|m|, Digest(m)) in job.srcName && !(job.src == job.tgt && m == job.target)
    ensures HasPatch(Digest(m), job.patches)
  {
  }

  lemma PatchWorks(job: Job, i: nat)
    requires Good(job) && i < |job.patches|
    ensures job.patches[i].knownFormat && job.patches[i].apply(job.patches[i].source.content) == Some(job.target)
  {
  }

  function CutShort(data: seq<bv8>, n: nat): seq<bv8> {
    data[..if n < |data| then n else |data|]
  }

  /** A run does not lose the source: its backup is not cut short, or is not needed, or what is left of it
      has a patch. */
  ghost predicate Survives(job: Job, fate: Fate, parts: seq<seq<bv8>>, cache: Option<seq<bv8>>) {
    fate.CutSave? && !Readable(job, parts) && cache.Some? ==>
      HasPatch(Digest(CutShort(cache.value, fate.n)), job.patches)
  }

  class Flash {
    var parts: seq<seq<bv8>>
    var cache: Option<seq<bv8>>

    constructor (parts: seq<seq<bv8>>, cache: Option<seq<bv8>>)
      ensures this.parts == parts && this.cache == cache
    {
      this.parts, this.cache := parts, cache;
    }

    /** One write(2) and the position after it: it may be short, or the last thing that happens. */
    method WriteSome(tgt: nat, data: seq<bv8>, start: nat, m: Medium, attempt: nat, left0: Option<nat>)
      returns (outcome: Outcome, after: nat, left: Option<nat>)
      requires tgt < |parts| && start < |data|
      modifies this`parts
      ensures OnlyFront(old(parts), parts, tgt, |data|) && start <= after <= |data|
      ensures outcome == Zero ==> start < after && (left.None? <==> left0.None?)
      ensures outcome == Zero && left.Some? ==>
                left0.value >= after - start && left.value == left0.value - (after - start)
      ensures outcome == Cut ==> left0.Some? && after - start == left0.value && after < |data|
      ensures Faithful(m) && |data| <= |parts[tgt]| ==>
                outcome != NonZero
                && parts[tgt] == old(parts)[tgt][..start] + data[start..after] + old(parts)[tgt][after..]
    {
      outcome, after, left := NonZero, start, left0;
      var toWrite := if |data| - start > WRITE_MAX then WRITE_MAX else |data| - start;
      if start + toWrite > |parts[tgt]| { return; }
      var written: nat :| 1 <= written <= toWrite;
      outcome := Zero;
      if left0.Some? && left0.value < written {
        written := left0.value;
        outcome := Cut;
      }
      if Faithful(m) { StoredFaithful(m, attempt, parts[tgt], start, data[start..start + written]); }
      parts := parts[tgt := Stored(m, attempt, parts[tgt], start, data[start..start + written])];
      after := start + written;
      if left0.Some? { left := Some(left0.value - written); }
    }

    /** The writes of one attempt. */
    method WriteRest(tgt: nat, data: seq<bv8>, start0: nat, m: Medium, attempt: nat, left0: Option<nat>)
      returns (outcome: Outcome, left: Option<nat>)
      requires tgt < |parts| && start0 <= |data|
      modifies this`parts
      ensures OnlyFront(old(parts), parts, tgt, |data|)
      ensures Faithful(m) && start0 == 0 && |data| <= |parts[tgt]| ==>
                if left0.Some? && left0.value < |data| then outcome == Cut
                && Holding(old(parts)[tgt], parts[tgt], data, left0.value)
                else outcome == Zero && Holding(old(parts)[tgt], parts[tgt], data, |data|)
    {
      hide OnlyFront, Holding, Faithful;
      var start := start0;
      outcome, left := Zero, left0;
      ghost var fits := Faithful(m) && start0 == 0 && |data| <= |parts[tgt]|;
      FrontSelf(parts, tgt, |data|);
      if fits { HoldingNone(parts[tgt], data); }
      while start < |data|
        invariant start <= |data| && tgt < |parts| && |parts[tgt]| == |old(parts)[tgt]|
                  && OnlyFront(old(parts), parts, tgt, |data|)
        invariant fits ==> Holding(old(parts)[tgt], parts[tgt], data, start)
        invariant left.None? <==> left0.None?
        invariant left.Some? ==>
                    start >= start0 && left0.value >= start - start0 && left.value == left0.value - (start - start0)
        invariant outcome == Zero
        decreases |data| - start
      {
        ghost var before, from := parts, start;
        outcome, start, left := WriteSome(tgt, data, start, m, attempt, left);
        FrontTransitive(old(parts), before, parts, tgt, |data|);
        FrontSizes(old(parts), parts, tgt, |data|);
        if fits { HoldingMore(old(parts)[tgt], before[tgt], parts[tgt], data, from, start); }
        if outcome != Zero { return; }
      }
    }

    /** The first of the pieces read back that differs from the data, or the end. */
    method ReadBack(tgt: nat, data: seq<bv8>) returns (ok: bool, start: nat)
      requires tgt < |parts|
      ensures start <= |data|
      ensures ok ==> start <= |parts[tgt]| && parts[tgt][..start] == data[..start]
      ensures ok && start == |data| ==> |data| <= |parts[tgt]| && parts[tgt][..|data|] == data
      ensures ok && start < |data| ==> var end := start + PieceSize(|data| - start);
                                       end <= |parts[tgt]| && parts[tgt][start..end] != data[start..end]
      ensures |data| <= |parts[tgt]| ==> ok
      ensures |data| <= |parts[tgt]| && parts[tgt][..|data|] == data ==> start == |data|
    {
      var p := 0;
      while p < |data|
        invariant 0 <= p && (p <= |data| ==> p <= |parts[tgt]| && parts[tgt][..p] == data[..p])
        invariant p >= |data| ==> |data| <= |parts[tgt]| && parts[tgt][..|data|] == data
        decreases |data| - p
      {
        var toRead := PieceSize(|data| - p);
        // The partition ends early.
        if p + toRead > |parts[tgt]| { return false, p; }
        if parts[tgt][p..p + toRead] != data[p..p + toRead] {
          assert |data| <= |parts[tgt]| ==> parts[tgt][..|data|][p..p + toRead] == parts[tgt][p..p + toRead];
          return true, p;
        }
        assert parts[tgt][..p] + parts[tgt][p..p + toRead] == parts[tgt][..p + toRead];
        assert data[..p] + data[p..p + toRead] == data[..p + toRead];
        assert p + toRead == |data| ==> data[..p + toRead] == data;
        p := p + READ_SIZE;
      }
      return true, |data|;
    }

    /** WriteToPartition: success means a full read-back matched. */
    method WriteToPartition(tgt: nat, data: seq<bv8>, m: Medium, cut: Option<nat>) returns (outcome: Outcome)
      requires tgt < |parts|
      modifies this`parts
      ensures OnlyFront(old(parts), parts, tgt, |data|)
      ensures outcome == Zero ==> |data| <= |parts[tgt]| && parts[tgt][..|data|] == data
      ensures Faithful(m) && |data| <= |parts[tgt]| ==>
                if cut.Some? && cut.value < |data| then outcome == Cut
                && Holding(old(parts)[tgt], parts[tgt], data, cut.value)
                else outcome == Zero
    {
      hide OnlyFront, Holding, Faithful;
      ghost var fits := Faithful(m) && |data| <= |parts[tgt]|;
      var start, attempt := 0, 0;
      var left := cut;
      FrontSelf(parts, tgt, |data|);
      while attempt < 2
        invariant 0 <= attempt <= 2 && 0 <= start <= |data| && OnlyFront(old(parts), parts, tgt, |data|)
        invariant tgt < |parts| && |parts[tgt]| == |old(parts)[tgt]|
        invariant fits ==> attempt == 0 && start == 0 && left == cut && parts == old(parts)
      {
        ghost var before := parts;
        outcome, left := WriteRest(tgt, data, start, m, attempt, left);
        FrontTransitive(old(parts), before, parts, tgt, |data|);
        FrontSizes(old(parts), parts, tgt, |data|);
        if outcome != Zero { return; }
        if fits { HoldingAll(old(parts)[tgt], parts[tgt], data); }
        var ok;
        ok, start := ReadBack(tgt, data);
        if !ok { return NonZero; }
        if start == |data| { return Zero; }
        attempt := attempt + 1;
      }
      return NonZero;
    }

    static ghost predicate Suits(job: Job, patch: Patch, source: seq<bv8>, m: Medium, parts: seq<seq<bv8>>)
      requires job.tgt < |parts|
    {
      patch.knownFormat && patch.apply(source) == Some(job.target) && Faithful(m) && |job.target| <= |parts[job.tgt]|
    }

    /** GenerateTarget: back up the source, patch it, write the target, remove the backup. */
    method GenerateTarget(job: Job, source: seq<bv8>, patch: Patch, m: Medium, fate: Fate) returns (outcome: Outcome)
      requires job.tgt < |parts|
      modifies this
      ensures OnlyFront(old(parts), parts, job.tgt, |job.target|)
      ensures outcome == Zero ==> AtTarget(job, parts) && cache == None
      ensures fate.CutSave? && patch.knownFormat ==>
                outcome == Cut && parts == old(parts) && cache == Some(CutShort(source, fate.n))
      ensures patch.knownFormat && !fate.CutSave? && patch.apply(source) == Some(job.target) && outcome != Zero ==>
                cache == Some(source)
      ensures Suits(job, patch, source, m, old(parts)) && fate == Steady ==> outcome == Zero
      ensures Suits(job, patch, source, m, old(parts)) && fate.CutUnlink? ==> outcome == Cut && AtTarget(job, parts)
      ensures Suits(job, patch, source, m, old(parts)) && fate.CutWrite? && fate.n < |job.target| ==>
                outcome == Cut && Holding(old(parts)[job.tgt], parts[job.tgt], job.target, fate.n)
    {
      hide OnlyFront, Holding, Faithful;
      FrontSelf(parts, job.tgt, |job.target|);
      if !patch.knownFormat { return NonZero; }
      // The backup is truncated before it is written.
      if fate.CutSave? {
        cache := Some(CutShort(source, fate.n));
        return Cut;
      }
      cache := Some(source);
      var out := patch.apply(source);
      if out.None? { return NonZero; }
      if Digest(out.value) != Digest(job.target) { return NonZero; }
      outcome := WriteToPartition(job.tgt, out.value, m, if fate.CutWrite? then Some(fate.n) else None);
      FrontSizes(old(parts), parts, job.tgt, |out.value|);
      if outcome != Zero { return; }
      if fate.CutUnlink? { return Cut; }
      cache := None;
    }

    /** Try the target, then the source: done already, or contents that may have a patch. */
    method LoadSource(job: Job) returns (already: bool, sourceFile: Option<seq<bv8>>)
      requires job.src < |parts| && job.tgt < |parts|
      ensures already ==> AtTarget(job, parts)
      ensures Good(job) && !already ==>
                && (sourceFile.Some? <==> Readable(job, parts))
                && (sourceFile.Some? ==> HasPatch(Digest(sourceFile.value), job.patches))
      ensures Good(job) && job.src == job.tgt && already ==> Readable(job, parts)
    {
      hide Good, HasPatch, Matches, GoodName;
      if Good(job) { NamesOk(job); }
      already := false;
      sourceFile := LoadPartitionContents(job.tgtName, parts[job.tgt]);
      if sourceFile.Some? && Digest(sourceFile.value) == Digest(job.target) {
        if Good(job) && job.src == job.tgt { TargetIsReadable(job, parts); }
        return true, sourceFile;
      }
      if sourceFile.None? || job.tgt != job.src || job.tgtName != job.srcName {
        sourceFile := LoadPartitionContents(job.srcName, parts[job.src]);
      }
      if Good(job) { SourceFacts(job, parts, sourceFile); }
    }

    /** applypatch. */
    method ApplyPatch(job: Job, m: Medium, fate: Fate) returns (outcome: Outcome)
      requires job.src < |parts| && job.tgt < |parts|
      modifies this
      ensures OnlyFront(old(parts), parts, job.tgt, |job.target|)
      ensures outcome == Zero ==> AtTarget(job, parts)
      ensures outcome == Zero ==> cache == None || (parts == old(parts) && cache == old(cache))
      ensures Good(job) && Fitting(job, old(parts)) ==>
                RunResult(job, m, fate, old(parts), old(cache), parts, cache, outcome)
    {
      hide OnlyFront, Faithful, Good, HasPatch, Holding, Readable, RunResult, AtTarget;
      FrontSelf(parts, job.tgt, |job.target|);
      ghost var good := Good(job) && Fitting(job, parts);
      ghost var parts0, cache0 := parts, cache;
      if fate.CutBefore? {
        if good { NothingDone(job, m, fate, parts, cache); }
        return Cut;
      }
      var already, sourceFile := LoadSource(job);
      if already {
        if good { AlreadyDone(job, m, fate, parts, cache); }
        return Zero;
      }
      if sourceFile.Some? {
        var toUse := FindMatchingPatch(Digest(sourceFile.value), job.patches);
        if toUse.Some? {
          if good { PatchWorks(job, toUse.value); }
          outcome := GenerateTarget(job, sourceFile.value, job.patches[toUse.value], m, fate);
          FrontSizes(parts0, parts, job.tgt, |job.target|);
          if good { Generated(job, m, fate, parts0, cache0, parts, cache, sourceFile.value, outcome); }
          return;
        }
      }
      // The source is bad; try the copy.
      if cache.None? {
        if good { NothingToUse(job, m, fate, parts, cache); }
        return NonZero;
      }
      var toUse := FindMatchingPatch(Digest(cache.value), job.patches);
      if toUse.None? {
        if good { NothingToUse(job, m, fate, parts, cache); }
        return NonZero;
      }
      var copy := cache.value;
      if good { PatchWorks(job, toUse.value); }
      outcome := GenerateTarget(job, copy, job.patches[toUse.value], m, fate);
      FrontSizes(parts0, parts, job.tgt, |job.target|);
      if good { Generated(job, m, fate, parts0, cache0, parts, cache, copy, outcome); }
    }
  }

  /** What a run does for a good job. */
  ghost predicate RunResult(job: Job, m: Medium, fate: Fate, parts0: seq<seq<bv8>>, cache0: Option<seq<bv8>>,
                            parts: seq<seq<bv8>>, cache: Option<seq<bv8>>, outcome: Outcome)
    requires job.tgt < |parts0| && job.tgt < |parts|
  {
    var recoverable := Recoverable(job, parts0, cache0);
    // A run that is neither interrupted nor let down by the medium succeeds.
    && (recoverable && fate == Steady && Faithful(m) ==> outcome == Zero)
    // A later run can succeed exactly if this one could and has not lost the source.
    && (Recoverable(job, parts, cache) <==> recoverable && Survives(job, fate, parts0, cache0))
    // Without a source to go by, a run in place fails.
    && (!recoverable && job.src == job.tgt ==>
          outcome == (if fate.CutBefore? then Cut else NonZero) && parts == parts0 && cache == cache0)
    // An interruption of the backup leaves a piece of it.
    && (recoverable && fate.CutSave? && !Readable(job, parts0) ==>
          parts == parts0 && cache0.Some? && cache == Some(CutShort(cache0.value, fate.n)))
    // An interruption of the writing leaves a piece of the target, and the backup.
    && (recoverable && fate.CutWrite? && fate.n < |job.target| && Faithful(m) ==>
          outcome != NonZero && (outcome == Zero ==> parts == parts0)
          && (outcome == Cut ==> CacheOk(job, cache) && Holding(parts0[job.tgt], parts[job.tgt], job.target, fate.n)))
    // An interruption before the backup is removed leaves both.
    && (recoverable && fate.CutUnlink? && Faithful(m) ==>
          AtTarget(job, parts) && (outcome == Zero || (outcome == Cut && CacheOk(job, cache))))
  }

  lemma NothingDone(job: Job, m: Medium, fate: Fate, parts: seq<seq<bv8>>, cache: Option<seq<bv8>>)
    requires Fitting(job, parts) && fate.CutBefore?
    ensures RunResult(job, m, fate, parts, cache, parts, cache, Cut)
  {
    hide Readable, Holding, Faithful, CacheOk;
  }

  lemma AlreadyDone(job: Job, m: Medium, fate: Fate, parts: seq<seq<bv8>>, cache: Option<seq<bv8>>)
    requires Fitting(job, parts) && (job.src == job.tgt ==> Readable(job, parts)) && AtTarget(job, parts)
    ensures RunResult(job, m, fate, parts, cache, parts, cache, Zero)
  {
    hide Readable, Holding, Faithful;
  }

  lemma NothingToUse(job: Job, m: Medium, fate: Fate, parts: seq<seq<bv8>>, cache: Option<seq<bv8>>)
    requires Fitting(job, parts) && !Readable(job, parts) && !CacheOk(job, cache) && !fate.CutBefore?
    ensures RunResult(job, m, fate, parts, cache, parts, cache, NonZero)
  {
    hide Readable, Holding, Faithful, CacheOk;
  }

  /** After GenerateTarget from a source with a patch: the partition's contents, or the backup. */
  lemma Generated(job: Job, m: Medium, fate: Fate, parts0: seq<seq<bv8>>, cache0: Option<seq<bv8>>,
                  parts: seq<seq<bv8>>, cache: Option<seq<bv8>>, source: seq<bv8>, outcome: Outcome)
    requires Good(job) && Fitting(job, parts0) && OnlyFront(parts0, parts, job.tgt, |job.target|)
    requires HasPatch(Digest(source), job.patches) && (Readable(job, parts0) || cache0 == Some(source))
    requires job.tgt < |parts| && (outcome == Zero ==> AtTarget(job, parts))
    requires fate.CutSave? ==> outcome == Cut && parts == parts0 && cache == Some(CutShort(source, fate.n))
    requires !fate.CutSave? && outcome != Zero ==> cache == Some(source)
    requires fate == Steady && Faithful(m) ==> outcome == Zero
    requires fate.CutWrite? && fate.n < |job.target| && Faithful(m) ==>
               outcome == Cut && Holding(parts0[job.tgt], parts[job.tgt], job.target, fate.n)
    requires fate.CutUnlink? && Faithful(m) ==> outcome == Cut && AtTarget(job, parts)
    ensures RunResult(job, m, fate, parts0, cache0, parts, cache, outcome)
  {
    hide Good, Readable, Holding, Faithful, HasPatch, OnlyFront, CutShort, AtTarget;
    assert job.src == job.tgt ==> Recoverable(job, parts0, cache0);
    if job.src != job.tgt {
      OtherKept(job, parts0, parts);
    } else if fate.CutSave? ==> Readable(job, parts0) {
      StaysRecoverable(job, parts0, cache0, parts, cache, source, outcome);
    }
  }

  lemma OtherKept(job: Job, parts0: seq<seq<bv8>>, parts: seq<seq<bv8>>)
    requires job.src != job.tgt && OnlyFront(parts0, parts, job.tgt, |job.target|)
    ensures Readable(job, parts) <==> Readable(job, parts0)
  {
  }

  lemma NamesOk(job: Job)
    requires Good(job)
    ensures GoodName(job.srcName) && GoodName(job.tgtName) && (job.src == job.tgt ==> job.srcName == job.tgtName)
  {
  }

  /** What the loading leaves as the source. */
  lemma SourceFacts(job: Job, parts: seq<seq<bv8>>, source: Option<seq<bv8>>)
    requires Good(job) && job.src < |parts|
    requires source.Some? <==> Readable(job, parts)
    requires source.Some? ==> SizeHash(|source.value|, Digest(source.value)) in job.srcName
    requires source.Some? && job.src == job.tgt ==> source.value != job.target
    ensures source.Some? ==> HasPatch(Digest(source.value), job.patches)
  {
    hide Good, HasPatch;
    if source.Some? { LoadedHasPatch(job, source.value); }
  }

  lemma StaysRecoverable(job: Job, parts0: seq<seq<bv8>>, cache0: Option<seq<bv8>>, parts: seq<seq<bv8>>,
                         cache: Option<seq<bv8>>,
                         source: seq<bv8>, outcome: Outcome)
    requires Good(job) && Fitting(job, parts0) && Recoverable(job, parts0, cache0)
             && OnlyFront(parts0, parts, job.tgt, |job.target|)
    requires HasPatch(Digest(source), job.patches) && (outcome == Zero ==> AtTarget(job, parts))
    requires outcome != Zero ==> cache == Some(source) || (parts == parts0 && Readable(job, parts0))
    ensures Recoverable(job, parts, cache)
  {
    hide Good;
    if job.src == job.tgt {
      if outcome == Zero { TargetIsReadable(job, parts); }
    } else {
      assert parts[job.src] == parts0[job.src];
    }
  }

  // ---------- runs ----------

  /** The partitions and the backup before a run, and its fate. */
  datatype Before = Before(parts: seq<seq<bv8>>, cache: Option<seq<bv8>>, fate: Fate)

  ghost predicate AllSurvive(job: Job, befores: seq<Before>) {
    forall i :: 0 <= i < |befores| ==> Survives(job, befores[i].fate, befores[i].parts, befores[i].cache)
  }

  lemma AllSurviveSnoc(job: Job, befores: seq<Before>, b: Before)
    ensures AllSurvive(job, befores + [b]) <==> AllSurvive(job, befores) && Survives(job, b.fate, b.parts, b.cache)
  {
    hide Survives;
    var all := befores + [b];
    if AllSurvive(job, all) {
      assert all[|befores|] == b;
      forall i | 0 <= i < |befores| ensures Survives(job, befores[i].fate, befores[i].parts, befores[i].cache) {
        assert all[i] == befores[i];
      }
    }
  }

  /** After any number of runs, interrupted anywhere and on any media, one that is not interrupted makes the
      target if none of them has lost the source; in place, only if. */
  method Rerun(flash: Flash, job: Job, runs: seq<(Medium, Fate)>, m: Medium)
    returns (outcome: Outcome, ghost befores: seq<Before>)
    requires Good(job) && Fitting(job, flash.parts) && Recoverable(job, flash.parts, flash.cache) && Faithful(m)
    modifies flash
    ensures |befores| == |runs| && forall i :: 0 <= i < |runs| ==> befores[i].fate == runs[i].1
    ensures |runs| > 0 ==> befores[0] == Before(old(flash.parts), old(flash.cache), runs[0].1)
    ensures AllSurvive(job, befores) ==> outcome == Zero
    ensures job.src == job.tgt ==> (outcome == Zero <==> AllSurvive(job, befores))
    ensures outcome == Zero ==> AtTarget(job, flash.parts)
    ensures job.src != job.tgt ==> AllSurvive(job, befores)
  {
    hide Good, Readable, Faithful, OnlyFront, AtTarget, AllSurvive, Survives;
    befores := [];
    NoneLost(job);
    var i := 0;
    while i < |runs|
      invariant 0 <= i <= |runs| && Fitting(job, flash.parts)
      invariant |befores| == i && forall j :: 0 <= j < i ==> befores[j].fate == runs[j].1
      invariant i == 0 ==> flash.parts == old(flash.parts) && flash.cache == old(flash.cache)
      invariant i > 0 ==> befores[0] == Before(old(flash.parts), old(flash.cache), runs[0].1)
      invariant Recoverable(job, flash.parts, flash.cache) <==> AllSurvive(job, befores)
      invariant job.src != job.tgt ==> AllSurvive(job, befores)
    {
      ghost var b := Before(flash.parts, flash.cache, runs[i].1);
      var o := flash.ApplyPatch(job, runs[i].0, runs[i].1);
      FrontSizes(b.parts, flash.parts, job.tgt, |job.target|);
      AllSurviveSnoc(job, befores, b);
      if job.src != job.tgt { OtherSurvives(job, b.fate, b.parts, b.cache); }
      befores := befores + [b];
      i := i + 1;
    }
    outcome := flash.ApplyPatch(job, m, Steady);
  }

  lemma NoneLost(job: Job)
    ensures AllSurvive(job, [])
  {
  }

  lemma OtherSurvives(job: Job, fate: Fate, parts: seq<seq<bv8>>, cache: Option<seq<bv8>>)
    requires job.src != job.tgt && Recoverable(job, parts, cache)
    ensures Survives(job, fate, parts, cache)
  {
  }

  /** However often patching from another partition is interrupted, the next run that is not makes the
      target. */
  method RerunFromOther(flash: Flash, job: Job, runs: seq<(Medium, Fate)>, m: Medium) returns (outcome: Outcome)
    requires Good(job) && Fitting(job, flash.parts) && job.src != job.tgt && Readable(job, flash.parts) && Faithful(m)
    modifies flash
    ensures outcome == Zero && AtTarget(job, flash.parts)
  {
    ghost var befores;
    outcome, befores := Rerun(flash, job, runs, m);
  }

  /** Patching in place survives any number of interruptions as long as at most the first of them is in the
      writing of the backup; so it survives one, wherever it is. */
  method RerunInPlace(flash: Flash, job: Job, runs: seq<(Medium, Fate)>, m: Medium) returns (outcome: Outcome)
    requires Good(job) && Fitting(job, flash.parts) && job.src == job.tgt && Readable(job, flash.parts) && Faithful(m)
    requires forall i :: 0 < i < |runs| ==> !runs[i].1.CutSave?
    modifies flash
    ensures outcome == Zero && AtTarget(job, flash.parts)
  {
    hide Good, Readable, Faithful, AtTarget;
    ghost var befores;
    outcome, befores := Rerun(flash, job, runs, m);
  }

  /** In place, two interruptions can lose the partition: one while it is being written, and one while
      the next run, which has only the backup left, writes that backup again. */
  method LostByTwoCuts() returns (before: Outcome, after: Outcome, flash: Flash, ghost job: Job)
    ensures Good(job) && before == Cut && after == NonZero && Fitting(job, flash.parts) && !AtTarget(job, flash.parts)
  {
    var s: seq<bv8>, t: seq<bv8> := [1, 1], [2, 2];
    var name := [SizeHash(2, Digest(s)), SizeHash(2, Digest(t))];
    var plainJob := Job(0, 0, name, name, [Patch(Digest(s), true, (x: seq<bv8>) => Some(t))], t);
    job := plainJob;
    var m := Medium((attempt: nat, p: nat, v: bv8) => v);
    flash := new Flash([s], None);
    assert HasPatch(Digest(s), job.patches) by { assert job.patches[0].source == Digest(s); }
    assert name[1] in name && name[0] in name;
    assert s[..2] == s;
    assert Matches(flash.parts[0], name[0]);
    assert Readable(job, flash.parts);
    before := flash.ApplyPatch(plainJob, m, CutWrite(1));
    assert t[..1] + s[1..] == [2, 1];
    Unlisted(job, flash.parts, s, t);
    assert flash.cache == Some(s);
    var again := flash.ApplyPatch(plainJob, m, CutSave(0));
    assert flash.cache == Some([]);
    assert !HasPatch(Digest([]), job.patches);
    after := flash.ApplyPatch(plainJob, m, Steady);
  }

  lemma Unlisted(job: Job, parts: seq<seq<bv8>>, s: seq<bv8>, t: seq<bv8>)
    requires s == [1, 1] && t == [2, 2] && parts == [[2, 1]] && job.src == 0
    requires job.srcName == [SizeHash(2, Digest(s)), SizeHash(2, Digest(t))]
    ensures !Readable(job, parts)
  {
    assert parts[0][..2] == parts[0];
  }
}
