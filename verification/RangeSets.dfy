/** Block ranges: sequences of half-open ranges, and sorted sets of them.

    A range list has two readings.  `Expand` is the order in which its blocks are visited, which is
    what reading, writing and splitting depend on.  `Covers` is the set of blocks it denotes, which
    is what overlap and merging depend on. */
module RangeSets {
  import opened Basics

  const BLOCK_SIZE: nat := 4096
  const SIZE_MAX: nat := 0xFFFF_FFFF_FFFF_FFFF

  datatype Range = Range(first: nat, second: nat)

  // ---------- the two readings of a range list ----------

  ghost predicate NonEmptyRanges(rs: seq<Range>) {
    forall i :: 0 <= i < |rs| ==> rs[i].first < rs[i].second
  }

  function Length(r: Range): nat {
    if r.first < r.second then r.second - r.first else 0
  }

  function Total(rs: seq<Range>): nat {
    if rs == [] then 0 else Length(rs[0]) + Total(rs[1..])
  }

  function Interval(r: Range): (s: seq<nat>)
    ensures |s| == Length(r)
  {
    seq(Length(r), i requires 0 <= i => r.first + i)
  }

  function Expand(rs: seq<Range>): seq<nat> {
    if rs == [] then [] else Interval(rs[0]) + Expand(rs[1..])
  }

  ghost predicate Covers(rs: seq<Range>, b: nat) {
    exists i :: 0 <= i < |rs| && rs[i].first <= b < rs[i].second
  }

  /** Sorted, pairwise disjoint and non-adjacent: the unique such list for its block set. */
  ghost predicate Canonical(rs: seq<Range>) {
    && NonEmptyRanges(rs)
    && forall i, j :: 0 <= i < j < |rs| ==> rs[i].second < rs[j].first
  }

  function Elements(s: seq<nat>): set<nat> {
    set b | b in s
  }

  /** The set of blocks a range list denotes. */
  function BlockSet(rs: seq<Range>): set<nat> {
    Elements(Expand(rs))
  }

  lemma {:induction false} ExpandLength(rs: seq<Range>)
    ensures |Expand(rs)| == Total(rs)
  {
    if rs != [] { ExpandLength(rs[1..]); }
  }

  lemma {:induction false} ExpandAppend(a: seq<Range>, b: seq<Range>)
    ensures Expand(a + b) == Expand(a) + Expand(b)
    ensures Total(a + b) == Total(a) + Total(b)
  {
    if a == [] {
      assert a + b == b;
    } else {
      assert (a + b)[0] == a[0] && (a + b)[1..] == a[1..] + b;
      ExpandAppend(a[1..], b);
    }
  }

  lemma ExpandOne(r: Range)
    ensures Expand([r]) == Interval(r) && Total([r]) == Length(r)
  {
    assert Expand([r]) == Interval(r) + Expand([]);
    assert [r][1..] == [];
  }

  lemma ExpandSnoc(rs: seq<Range>, r: Range)
    ensures Expand(rs + [r]) == Expand(rs) + Interval(r)
    ensures Total(rs + [r]) == Total(rs) + Length(r)
  {
    ExpandAppend(rs, [r]);
    ExpandOne(r);
  }

  lemma ExpandSuffix(rs: seq<Range>, i: nat)
    requires i < |rs|
    ensures Expand(rs[i..]) == Interval(rs[i]) + Expand(rs[i + 1..])
    ensures Total(rs[i..]) == Length(rs[i]) + Total(rs[i + 1..])
  {
    assert rs[i..][0] == rs[i] && rs[i..][1..] == rs[i + 1..];
  }

  lemma ExpandPrefix(rs: seq<Range>, i: nat)
    requires i < |rs|
    ensures Expand(rs[..i + 1]) == Expand(rs[..i]) + Interval(rs[i])
    ensures Total(rs[..i + 1]) == Total(rs[..i]) + Length(rs[i])
  {
    assert rs[..i + 1] == rs[..i] + [rs[i]];
    ExpandSnoc(rs[..i], rs[i]);
  }

  /** The two readings agree on membership. */
  lemma {:induction false} ExpandCovers(rs: seq<Range>, b: nat)
    ensures b in Expand(rs) <==> Covers(rs, b)
  {
    if rs != [] {
      ExpandCovers(rs[1..], b);
      var r := rs[0];
      if r.first <= b < r.second { assert Interval(r)[b - r.first] == b; }
      if Covers(rs[1..], b) {
        var i :| 0 <= i < |rs[1..]| && rs[1..][i].first <= b < rs[1..][i].second;
        assert rs[i + 1] == rs[1..][i];
      }
      if Covers(rs, b) && !(r.first <= b < r.second) {
        var i :| 0 <= i < |rs| && rs[i].first <= b < rs[i].second;
        assert rs[1..][i - 1] == rs[i];
      }
    }
  }

  /** A canonical list visits its blocks in strictly increasing order. */
  lemma {:induction false} CanonicalAscends(rs: seq<Range>)
    requires Canonical(rs)
    ensures forall i, j :: 0 <= i < j < |Expand(rs)| ==> Expand(rs)[i] < Expand(rs)[j]
  {
    if rs != [] {
      var rest := rs[1..];
      CanonicalAscends(rest);
      forall k | 0 <= k < |Expand(rest)| ensures rs[0].second < Expand(rest)[k] {
        var b := Expand(rest)[k];
        ExpandCovers(rest, b);
        var i :| 0 <= i < |rest| && rest[i].first <= b < rest[i].second;
        assert rest[i] == rs[i + 1];
      }
      var head, tail := Interval(rs[0]), Expand(rest);
      forall i, j | 0 <= i < j < |Expand(rs)| ensures Expand(rs)[i] < Expand(rs)[j] {
        if |head| <= i { assert tail[i - |head|] < tail[j - |head|]; }
        else if |head| <= j { assert rs[0].second < tail[j - |head|]; }
      }
    }
  }

  /** For a canonical list the block count is the cardinality of the block set. */
  lemma {:induction false} CanonicalCardinality(rs: seq<Range>)
    requires Canonical(rs)
    ensures |BlockSet(rs)| == Total(rs)
  {
    CanonicalAscends(rs);
    ExpandLength(rs);
    var s := Expand(rs);
    assert forall i, j :: 0 <= i < j < |s| ==> s[i] != s[j];
    DistinctCardinality(s);
  }

  lemma {:induction false} DistinctCardinality(s: seq<nat>)
    requires forall i, j :: 0 <= i < j < |s| ==> s[i] != s[j]
    ensures |Elements(s)| == |s|
  {
    if s != [] {
      var rest := s[1..];
      forall i, j | 0 <= i < j < |rest| ensures rest[i] != rest[j] {
        assert s[i + 1] != s[j + 1];
      }
      DistinctCardinality(rest);
      assert s == [s[0]] + rest;
      assert Elements(s) == {s[0]} + Elements(rest);
      assert s[0] !in rest;
    }
  }

  // ---------- sorting (std::sort on pairs) ----------

  predicate Leq(a: Range, b: Range) {
    a.first < b.first || (a.first == b.first && a.second <= b.second)
  }

  ghost predicate IsSorted(rs: seq<Range>) {
    forall i, j :: 0 <= i < j < |rs| ==> Leq(rs[i], rs[j])
  }

  function SortedInsert(r: Range, rs: seq<Range>): seq<Range> {
    if rs == [] then [r]
    else if Leq(r, rs[0]) then [r] + rs
    else [rs[0]] + SortedInsert(r, rs[1..])
  }

  function Sort(rs: seq<Range>): seq<Range> {
    if rs == [] then [] else SortedInsert(rs[0], Sort(rs[1..]))
  }

  lemma {:induction false} SortedInsertSorts(r: Range, rs: seq<Range>)
    requires IsSorted(rs)
    ensures IsSorted(SortedInsert(r, rs))
    ensures multiset(SortedInsert(r, rs)) == multiset(rs) + multiset{r}
  {
    if rs == [] {
    } else if Leq(r, rs[0]) {
      assert forall i :: 0 < i < |rs| ==> Leq(rs[0], rs[i]);
      SortedCons(r, rs);
    } else {
      var rest := rs[1..];
      assert rs == [rs[0]] + rest;
      SortedInsertSorts(r, rest);
      var t := SortedInsert(r, rest);
      forall i | 0 <= i < |t| ensures Leq(rs[0], t[i]) {
        assert t[i] in multiset(t);
        assert t[i] == r || t[i] in rest;
      }
      SortedCons(rs[0], t);
    }
  }

  lemma SortedCons(r: Range, rs: seq<Range>)
    requires IsSorted(rs) && forall i :: 0 <= i < |rs| ==> Leq(r, rs[i])
    ensures IsSorted([r] + rs)
  {
  }

  lemma {:induction false} SortSorts(rs: seq<Range>)
    ensures IsSorted(Sort(rs)) && multiset(Sort(rs)) == multiset(rs)
  {
    if rs != [] {
      assert rs == [rs[0]] + rs[1..];
      SortSorts(rs[1..]);
      SortedInsertSorts(rs[0], Sort(rs[1..]));
    }
  }

  /** A permutation denotes the same block set. */
  lemma PermutationCovers(a: seq<Range>, b: seq<Range>, x: nat)
    requires multiset(a) == multiset(b)
    ensures Covers(a, x) <==> Covers(b, x)
  {
    if Covers(a, x) {
      var i :| 0 <= i < |a| && a[i].first <= x < a[i].second;
      assert a[i] in multiset(b);
      var j :| 0 <= j < |b| && b[j] == a[i];
    }
    if Covers(b, x) {
      var i :| 0 <= i < |b| && b[i].first <= x < b[i].second;
      assert b[i] in multiset(a);
      var j :| 0 <= j < |a| && a[j] == b[i];
    }
  }

  // ---------- canonical lists and byte offsets ----------

  lemma {:induction false} CanonicalBound(rs: seq<Range>, limit: nat)
    requires Canonical(rs) && forall i :: 0 <= i < |rs| ==> rs[i].second <= limit
    ensures Total(rs) <= if rs == [] then 0 else limit - rs[0].first
  {
    if |rs| > 0 {
      CanonicalBound(rs[1..], limit);
    }
  }

  /** The block range a non-empty byte interval occupies; sizes are 64-bit and wrap. */
  function ByteRange(start: nat, len: nat): Range {
    Range(start / BLOCK_SIZE, (start + len - 1) % (SIZE_MAX + 1) / BLOCK_SIZE + 1)
  }

  /** It holds exactly the blocks that contain one of the bytes. */
  lemma ByteRangeMeaning(start: nat, len: nat, b: nat)
    requires 0 < len && start + len <= SIZE_MAX
    ensures ByteRange(start, len).first < ByteRange(start, len).second
    ensures ByteRange(start, len).first <= b < ByteRange(start, len).second
            <==> exists o :: start <= o < start + len && o / BLOCK_SIZE == b
  {
    var last := start + len - 1;
    assert last % (SIZE_MAX + 1) == last;
    assert start / BLOCK_SIZE <= last / BLOCK_SIZE;
    if start / BLOCK_SIZE <= b <= last / BLOCK_SIZE {
      var o := if b == start / BLOCK_SIZE then start else b * BLOCK_SIZE;
      assert start <= o <= last && o / BLOCK_SIZE == b;
    }
  }

  /** Where a file offset lands once the listed blocks are packed together; None is the abort for
      an offset whose block is not in the list. */
  function OffsetInRangeSet(rs: seq<Range>, offset: nat): Option<nat> {
    if rs == [] then None
    else if offset / BLOCK_SIZE >= rs[0].second then
      match OffsetInRangeSet(rs[1..], offset)
      case None => None
      case Some(o) => Some(Length(rs[0]) * BLOCK_SIZE + o)
    else if offset / BLOCK_SIZE >= rs[0].first then
      Some((offset / BLOCK_SIZE - rs[0].first) * BLOCK_SIZE + offset % BLOCK_SIZE)
    else None
  }

  ghost predicate LandsOn(rs: seq<Range>, offset: nat, o: nat) {
    && o % BLOCK_SIZE == offset % BLOCK_SIZE
    && o / BLOCK_SIZE < |Expand(rs)|
    && Expand(rs)[o / BLOCK_SIZE] == offset / BLOCK_SIZE
  }

  lemma {:induction false} OffsetInRangeSetMeaning(rs: seq<Range>, offset: nat)
    requires Canonical(rs)
    ensures OffsetInRangeSet(rs, offset).Some? <==> Covers(rs, offset / BLOCK_SIZE)
    ensures OffsetInRangeSet(rs, offset).Some? ==> LandsOn(rs, offset, OffsetInRangeSet(rs, offset).value)
  {
    if rs != [] {
      var block, rest := offset / BLOCK_SIZE, rs[1..];
      OffsetInRangeSetMeaning(rest, offset);
      assert rs == [rs[0]] + rest;
      CoversAppend([rs[0]], rest, block);
      if block >= rs[0].second {
        if Covers(rest, block) {
          LandsLater(rs, offset, OffsetInRangeSet(rest, offset).value);
        }
      } else if block >= rs[0].first {
        assert [rs[0]][0].first <= block < [rs[0]][0].second;
        LandsHere(rs, offset);
      }
    }
  }

  lemma LandsLater(rs: seq<Range>, offset: nat, o: nat)
    requires rs != [] && LandsOn(rs[1..], offset, o)
    ensures LandsOn(rs, offset, Length(rs[0]) * BLOCK_SIZE + o)
  {
    PackedOffset(Length(rs[0]), o);
  }

  lemma LandsHere(rs: seq<Range>, offset: nat)
    requires rs != [] && rs[0].first <= offset / BLOCK_SIZE < rs[0].second
    ensures LandsOn(rs, offset, (offset / BLOCK_SIZE - rs[0].first) * BLOCK_SIZE + offset % BLOCK_SIZE)
  {
    PackedOffset(offset / BLOCK_SIZE - rs[0].first, offset % BLOCK_SIZE);
    assert Interval(rs[0])[offset / BLOCK_SIZE - rs[0].first] == offset / BLOCK_SIZE;
  }

  lemma PackedOffset(blocks: nat, o: nat)
    ensures (blocks * BLOCK_SIZE + o) / BLOCK_SIZE == blocks + o / BLOCK_SIZE
    ensures (blocks * BLOCK_SIZE + o) % BLOCK_SIZE == o % BLOCK_SIZE
  {
  }

  /** GetOffsetInRangeSet inverts GetBlockNumber. */
  lemma OffsetInvertsBlockNumber(rs: seq<Range>, i: nat, within: nat)
    requires Canonical(rs) && i < |Expand(rs)| && within < BLOCK_SIZE
    ensures OffsetInRangeSet(rs, Expand(rs)[i] * BLOCK_SIZE + within) == Some(i * BLOCK_SIZE + within)
  {
    var offset := Expand(rs)[i] * BLOCK_SIZE + within;
    PackedOffset(Expand(rs)[i], within);
    ExpandCovers(rs, Expand(rs)[i]);
    OffsetInRangeSetMeaning(rs, offset);
    CanonicalAscends(rs);
  }

  // ---------- source relocation ----------

  /** The bytes of the listed blocks of a file, packed together; the file's last block may be short. */
  function Pack<T>(file: seq<T>, rs: seq<Range>): seq<T>
    requires Packable(file, rs)
  {
    if rs == [] then [] else PackOne(file, rs[0]) + Pack(file, rs[1..])
  }

  function PackOne<T>(file: seq<T>, r: Range): seq<T>
    requires r.first < r.second && r.first * BLOCK_SIZE <= |file|
  {
    file[r.first * BLOCK_SIZE..if |file| < r.second * BLOCK_SIZE then |file| else r.second * BLOCK_SIZE]
  }

  /** What is packed from disjoint ranges is no longer than the file. */
  lemma {:induction false} PackLength<T>(file: seq<T>, rs: seq<Range>)
    requires Canonical(rs) && Packable(file, rs)
    ensures |Pack(file, rs)| <= if rs == [] then 0 else |file| - rs[0].first * BLOCK_SIZE
    decreases |rs|
  {
    if rs != [] {
      PackLength(file, rs[1..]);
      if |rs| > 1 { assert rs[1].first * BLOCK_SIZE >= rs[0].second * BLOCK_SIZE; }
    }
  }

  /** A run of covered blocks lies inside one range of a canonical list. */
  lemma RunInOneRange(rs: seq<Range>, lo: nat, hi: nat, i: nat)
    requires Canonical(rs) && lo <= hi && i < |rs| && rs[i].first <= lo < rs[i].second
    requires forall b :: lo <= b <= hi ==> Covers(rs, b)
    ensures hi < rs[i].second
  {
    GapAfterRange(rs, i);
  }

  lemma GapAfterRange(rs: seq<Range>, i: nat)
    requires Canonical(rs) && i < |rs|
    ensures !Covers(rs, rs[i].second)
  {
  }

  /** A chunk whose blocks are all listed is found, unchanged and in one piece, at its relocated
      offset in the packed content. */
  lemma Relocation<T>(file: seq<T>, rs: seq<Range>, start: nat, len: nat) returns (o: nat)
    requires Canonical(rs) && 0 < len && start + len <= |file| && Packable(file, rs)
    requires forall b :: start / BLOCK_SIZE <= b <= (start + len - 1) / BLOCK_SIZE ==> Covers(rs, b)
    ensures RelocatedTo(file, rs, start, len, o)
  {
    var lo, hi := start / BLOCK_SIZE, (start + len - 1) / BLOCK_SIZE;
    assert lo <= hi;
    assert Covers(rs, lo);
    var i :| 0 <= i < |rs| && rs[i].first <= lo < rs[i].second;
    RunInOneRange(rs, lo, hi, i);
    o := RelocateInRange(file, rs, start, len, i);
  }

  lemma SliceOfSlice<T>(a: seq<T>, lo: nat, hi: nat, o: nat, len: nat)
    requires lo <= hi <= |a| && lo + o + len <= hi
    ensures a[lo..hi][o..o + len] == a[lo + o..lo + o + len]
  {
    var x, y := a[lo..hi][o..o + len], a[lo + o..lo + o + len];
    forall i | 0 <= i < len ensures x[i] == y[i] {
      assert x[i] == a[lo..hi][o + i] == a[lo + (o + i)];
    }
  }

  lemma SliceOfPrefix<T>(a: seq<T>, b: seq<T>, o: nat, len: nat)
    requires o + len <= |a|
    ensures o + len <= |a + b| && (a + b)[o..o + len] == a[o..o + len]
  {
  }

  lemma SliceOfSuffix<T>(a: seq<T>, b: seq<T>, o: nat, len: nat)
    requires o + len <= |b|
    ensures (a + b)[|a| + o..|a| + o + len] == b[o..o + len]
  {
  }

  /** Where the chunk is in the packed content, and that it is unchanged there. */
  ghost predicate RelocatedTo<T>(file: seq<T>, rs: seq<Range>, start: nat, len: nat, o: nat)
    requires start + len <= |file| && Packable(file, rs)
  {
    && OffsetInRangeSet(rs, start) == Some(o)
    && o + len <= |Pack(file, rs)| && Pack(file, rs)[o..o + len] == file[start..start + len]
  }

  ghost predicate Packable<T>(file: seq<T>, rs: seq<Range>) {
    NonEmptyRanges(rs) && forall i :: 0 <= i < |rs| ==> rs[i].first * BLOCK_SIZE <= |file|
  }

  lemma {:induction false} RelocateInRange<T>(file: seq<T>, rs: seq<Range>, start: nat, len: nat, i: nat)
    returns (o: nat)
    requires Canonical(rs) && 0 < len && start + len <= |file| && i < |rs| && Packable(file, rs)
    requires rs[i].first <= start / BLOCK_SIZE && (start + len - 1) / BLOCK_SIZE < rs[i].second
    ensures RelocatedTo(file, rs, start, len, o)
    decreases i
  {
    if i == 0 {
      o := RelocateHere(file, rs, start, len);
    } else {
      var rest := rs[1..];
      assert rest[i - 1] == rs[i] && rs[0].second < rs[i].first;
      assert forall j :: 0 <= j < |rest| ==> rest[j] == rs[j + 1];
      o := RelocateInRange(file, rest, start, len, i - 1);
      assert rs[0].second * BLOCK_SIZE <= rs[i].first * BLOCK_SIZE <= |file|;
      RelocateLater(file, rs, start, len, o);
      o := Length(rs[0]) * BLOCK_SIZE + o;
    }
  }

  lemma RelocateHere<T>(file: seq<T>, rs: seq<Range>, start: nat, len: nat) returns (o: nat)
    requires rs != [] && 0 < len && start + len <= |file| && Packable(file, rs)
    requires rs[0].first <= start / BLOCK_SIZE && (start + len - 1) / BLOCK_SIZE < rs[0].second
    ensures RelocatedTo(file, rs, start, len, o)
  {
    var r := rs[0];
    BlockBounds(start, len, r.first, r.second);
    o := start - r.first * BLOCK_SIZE;
    var head, tail := PackOne(file, r), Pack(file, rs[1..]);
    var end := if |file| < r.second * BLOCK_SIZE then |file| else r.second * BLOCK_SIZE;
    SliceOfSlice(file, r.first * BLOCK_SIZE, end, o, len);
    SliceOfPrefix(head, tail, o, len);
  }

  lemma RelocateLater<T>(file: seq<T>, rs: seq<Range>, start: nat, len: nat, o: nat)
    requires rs != [] && start + len <= |file| && Packable(file, rs) && Packable(file, rs[1..])
    requires rs[0].second <= start / BLOCK_SIZE && rs[0].second * BLOCK_SIZE <= |file|
    requires RelocatedTo(file, rs[1..], start, len, o)
    ensures RelocatedTo(file, rs, start, len, Length(rs[0]) * BLOCK_SIZE + o)
  {
    var head, tail := PackOne(file, rs[0]), Pack(file, rs[1..]);
    assert |head| == Length(rs[0]) * BLOCK_SIZE;
    SliceOfSuffix(head, tail, o, len);
  }

  lemma BlockBounds(start: nat, len: nat, first: nat, second: nat)
    requires 0 < len && first <= start / BLOCK_SIZE && (start + len - 1) / BLOCK_SIZE < second
    ensures first * BLOCK_SIZE <= start && start + len <= second * BLOCK_SIZE
    ensures start / BLOCK_SIZE <= (start + len - 1) / BLOCK_SIZE
    ensures (start / BLOCK_SIZE - first) * BLOCK_SIZE + start % BLOCK_SIZE == start - first * BLOCK_SIZE
  {
  }

  // ---------- the mutable class ----------

  lemma PrefixAtMost(rs: seq<Range>, m: nat)
    requires m <= |rs|
    ensures Total(rs[..m]) <= Total(rs)
  {
    hide *;
    assert rs == rs[..m] + rs[m..];
    ExpandAppend(rs[..m], rs[m..]);
  }

  lemma PrefixTotal(rs: seq<Range>, i: nat)
    requires i < |rs|
    ensures rs[..i + 1] == rs[..i] + [rs[i]]
    ensures Total(rs[..i + 1]) == Total(rs[..i]) + Length(rs[i]) <= Total(rs)
  {
    hide *;
    ExpandPrefix(rs, i);
    PrefixAtMost(rs, i + 1);
  }

  lemma NothingTotal()
    ensures Total([]) == 0
  {
  }

  /** RangeSet and its sorted subclass.  The operations of SortedRangeSet are the ones that demand
      or establish Canonical. */
  class RangeSet {
    var ranges_: seq<Range>
    var blocks_: nat

    ghost predicate Valid()
      reads this
    {
      NonEmptyRanges(ranges_) && blocks_ == Total(ranges_)
    }

    constructor ()
      ensures Valid() && ranges_ == []
    {
      ranges_, blocks_ := [], 0;
    }

    /** A bad or overflowing pair empties the whole set. */
    constructor FromPairs(pairs: seq<Range>)
      ensures Valid()
      ensures ranges_ == if NonEmptyRanges(pairs) && Total(pairs) < SIZE_MAX then pairs else []
    {
      hide Expand, Interval, Covers, Total;
      ranges_, blocks_ := [], 0;
      NothingTotal();
      new;
      var i := 0;
      while i < |pairs|
        invariant i <= |pairs| && Valid() && ranges_ == pairs[..i]
        invariant i > 0 ==> Total(ranges_) < SIZE_MAX
      {
        PrefixTotal(pairs, i);
        var ok := PushBack(pairs[i]);
        if !ok {
          Clear();
          return;
        }
        i := i + 1;
      }
      assert pairs[..i] == pairs;
    }

    method PushBack(range: Range) returns (ok: bool)
      requires Valid()
      modifies this
      ensures Valid()
      ensures ok <==> range.first < range.second && old(blocks_) + Length(range) < SIZE_MAX
      ensures ranges_ == old(ranges_) + if ok then [range] else []
    {
      if range.first >= range.second { return false; }
      var sz := range.second - range.first;
      if blocks_ as int >= SIZE_MAX - sz { return false; }
      ExpandSnoc(ranges_, range);
      ranges_ := ranges_ + [range];
      blocks_ := blocks_ + sz;
      return true;
    }

    method Clear()
      modifies this
      ensures Valid() && ranges_ == []
    {
      ranges_, blocks_ := [], 0;
    }

    /** The idx-th block in visiting order. */
    method GetBlockNumber(idx: nat) returns (block: nat)
      requires Valid() && idx < blocks_
      ensures |Expand(ranges_)| == blocks_ && block == Expand(ranges_)[idx]
    {
      ExpandLength(ranges_);
      block := 0;
      var left, i := idx, 0;
      assert ranges_[0..] == ranges_;
      while i < |ranges_|
        invariant i <= |ranges_| && |Expand(ranges_[i..])| == Total(ranges_[i..])
        invariant 0 <= left < Total(ranges_[i..]) && idx < |Expand(ranges_)|
        invariant Expand(ranges_)[idx] == Expand(ranges_[i..])[left]
      {
        ExpandSuffix(ranges_, i);
        ExpandLength(ranges_[i + 1..]);
        if left < ranges_[i].second - ranges_[i].first {
          return ranges_[i].first + left;
        }
        left := left - (ranges_[i].second - ranges_[i].first);
        i := i + 1;
      }
      assert false;
    }

    /** True exactly when the two block sets meet. */
    method Overlaps(other: seq<Range>) returns (r: bool)
      requires Valid() && NonEmptyRanges(other)
      ensures r <==> exists b: nat :: Covers(ranges_, b) && Covers(other, b)
    {
      r := RangesOverlap(ranges_, other);
    }

    /** Sort and merge: the result is canonical and denotes the union. */
    method Insert(rs: seq<Range>)
      requires Valid() && NonEmptyRanges(rs)
      requires rs == [] ==> Canonical(ranges_)
      modifies this
      ensures Valid() && Canonical(ranges_)
      ensures forall b: nat :: Covers(ranges_, b) <==> old(Covers(ranges_, b)) || Covers(rs, b)
      ensures blocks_ == |BlockSet(ranges_)|
    {
      if rs == [] {
        CanonicalCardinality(ranges_);
        return;
      }
      ghost var before := ranges_;
      var temp := Sort(ranges_ + rs);
      SortSorts(ranges_ + rs);
      SameRanges(temp, before + rs);
      Clear();
      ranges_, blocks_ := MergeSorted(temp);
      CanonicalCardinality(ranges_);
      forall b: nat ensures Covers(temp, b) <==> Covers(before, b) || Covers(rs, b) {
        PermutationCovers(temp, before + rs, b);
        CoversAppend(before, rs, b);
      }
    }

    /** Insert the blocks a byte interval occupies. */
    method InsertBytes(start: nat, len: nat)
      requires Valid() && Canonical(ranges_)
      modifies this
      ensures Valid() && Canonical(ranges_) && blocks_ == |BlockSet(ranges_)|
      ensures var r := ByteRange(start, len);
              forall b: nat :: Covers(ranges_, b) <==> old(Covers(ranges_, b)) || r.first <= b < r.second
    {
      var r := ByteRange(start, len);
      // The one-range set constructor drops an empty range.
      Insert(if r.first < r.second then [r] else []);
      forall b: nat ensures Covers([r], b) <==> r.first <= b < r.second {
        if r.first <= b < r.second { assert [r][0] == r; }
      }
    }

    method OverlapsBytes(start: nat, len: nat) returns (r: bool)
      requires Valid()
      ensures r <==> exists b: nat :: Covers(ranges_, b)
                       && ByteRange(start, len).first <= b < ByteRange(start, len).second
    {
      var range := ByteRange(start, len);
      r := Overlaps(if range.first < range.second then [range] else []);
      forall b: nat ensures Covers([range], b) <==> range.first <= b < range.second {
        if range.first <= b < range.second { assert [range][0] == range; }
      }
    }

    method GetOffsetInRangeSet(oldOffset: nat) returns (r: Option<nat>)
      requires Valid() && Canonical(ranges_)
      ensures r == OffsetInRangeSet(ranges_, oldOffset)
    {
      var oldBlockStart, newBlockStart, i := oldOffset / BLOCK_SIZE, 0, 0;
      assert ranges_[0..] == ranges_;
      while i < |ranges_|
        invariant i <= |ranges_|
        invariant OffsetInRangeSet(ranges_, oldOffset) ==
                  match OffsetInRangeSet(ranges_[i..], oldOffset)
                  case None => None
                  case Some(o) => Some(newBlockStart * BLOCK_SIZE + o)
      {
        var range := ranges_[i];
        assert ranges_[i..][0] == range && ranges_[i..][1..] == ranges_[i + 1..];
        if oldBlockStart >= range.second {
          newBlockStart := newBlockStart + (range.second - range.first);
        } else if oldBlockStart >= range.first {
          newBlockStart := newBlockStart + (oldBlockStart - range.first);
          return Some(newBlockStart * BLOCK_SIZE + oldOffset % BLOCK_SIZE);
        } else {
          return None;
        }
        i := i + 1;
      }
      return None;
    }

    /** Distribute the blocks evenly over at most `groups` sets. */
    method Split(groups: nat) returns (result: seq<seq<Range>>)
      requires Valid()
      ensures |result| == if groups < blocks_ then groups else blocks_
      ensures groups > 0 ==> ExpandAll(result) == Expand(ranges_)
      ensures forall k :: 0 <= k < |result| ==>
                && NonEmptyRanges(result[k])
                && Total(result[k]) == GroupSize(blocks_ / |result|, blocks_ % |result|, k)
                && Total(result[k]) > 0
    {
      if ranges_ == [] || groups == 0 { return []; }
      var count := if blocks_ < groups then blocks_ else groups;
      HandedAll(blocks_, count);
      result := FillGroups(ranges_, count, blocks_ / count, blocks_ % count);
    }
  }

  /** The blocks not handed out yet: the rest of the current range and the ranges after it. */
  ghost function Pending(all: seq<Range>, it: nat, range: Range): seq<Range> {
    if it >= |all| then [] else [range] + all[it + 1..]
  }

  /** After k groups: the groups made so far, followed by the pending blocks, are all the blocks. */
  ghost predicate Splitting(all: seq<Range>, mean: nat, extra: nat, k: nat,
                            result: seq<seq<Range>>, pending: seq<Range>)
  {
    && |result| == k
    && NonEmptyRanges(pending) && Total(pending) + Handed(mean, extra, k) == Total(all)
    && ExpandAll(result) + Expand(pending) == Expand(all)
    && forall j :: 0 <= j < k ==> NonEmptyRanges(result[j]) && Total(result[j]) == GroupSize(mean, extra, j)
  }

  lemma SplittingStep(all: seq<Range>, mean: nat, extra: nat, k: nat, result: seq<seq<Range>>,
                      pending: seq<Range>, buffer: seq<Range>, rest: seq<Range>)
    requires Splitting(all, mean, extra, k, result, pending)
    requires Filling(pending, GroupSize(mean, extra, k), buffer, 0, rest)
    ensures Splitting(all, mean, extra, k + 1, result + [buffer], rest)
  {
    var next := result + [buffer];
    assert next[..k] == result && next[k] == buffer;
    Assoc(ExpandAll(result), Expand(buffer), Expand(rest));
  }

  lemma PendingFrom(all: seq<Range>, it: nat)
    requires it <= |all|
    ensures Pending(all, it, if it < |all| then all[it] else Range(0, 0)) == all[it..]
  {
  }

  /** The loop of Split over the groups. */
  method FillGroups(all: seq<Range>, count: nat, mean: nat, extra: nat) returns (result: seq<seq<Range>>)
    requires all != [] && NonEmptyRanges(all) && Handed(mean, extra, count) == Total(all)
    ensures |result| == count && ExpandAll(result) == Expand(all)
    ensures forall k :: 0 <= k < count ==> NonEmptyRanges(result[k]) && Total(result[k]) == GroupSize(mean, extra, k)
  {
    result := [];
    var it: nat, range, k := 0, all[0], 0;
    PendingFrom(all, 0);
    while k < count
      invariant k <= count && it <= |all|
      invariant Splitting(all, mean, extra, k, result, Pending(all, it, range))
    {
      HandedGrows(mean, extra, k + 1, count);
      ghost var pending := Pending(all, it, range);
      var buffer;
      buffer, it, range := FillGroup(all, it, range, GroupSize(mean, extra, k));
      SplittingStep(all, mean, extra, k, result, pending, buffer, Pending(all, it, range));
      result := result + [buffer];
      k := k + 1;
    }
    ExpandLength(Pending(all, it, range));
  }

  /** The inner loop of Split: take exactly `blocks` blocks. */
  method FillGroup(all: seq<Range>, it0: nat, range0: Range, blocks: nat)
    returns (buffer: seq<Range>, it: nat, range: Range)
    requires it0 <= |all| && NonEmptyRanges(all) && NonEmptyRanges(Pending(all, it0, range0))
    requires blocks <= Total(Pending(all, it0, range0))
    ensures it <= |all| && Filling(Pending(all, it0, range0), blocks, buffer, 0, Pending(all, it, range))
  {
    buffer, it, range := [], it0, range0;
    ghost var whole := Pending(all, it, range);
    var needed: nat := blocks;
    while needed > 0
      invariant it <= |all| && Filling(whole, blocks, buffer, needed, Pending(all, it, range))
      decreases |all| - it
    {
      assert it < |all| && Pending(all, it, range) == [range] + all[it + 1..];
      var rangeBlocks := range.second - range.first;
      if rangeBlocks > needed {
        // Split the current range and do not advance the iterator.
        SplitRange(whole, blocks, buffer, needed, range, all[it + 1..]);
        buffer := buffer + [Range(range.first, range.first + needed)];
        range := Range(range.first + needed, range.second);
        return;
      }
      TakeRange(whole, blocks, buffer, needed, range, all[it + 1..]);
      buffer := buffer + [range];
      it := it + 1;
      if it != |all| {
        range := all[it];
      }
      PendingFrom(all, it);
      needed := needed - rangeBlocks;
    }
  }

  /** `needed` more blocks have to move from `pending` to the group that `buffer` collects. */
  ghost predicate Filling(whole: seq<Range>, blocks: nat, buffer: seq<Range>, needed: nat, pending: seq<Range>) {
    && NonEmptyRanges(buffer) && NonEmptyRanges(pending)
    && Total(buffer) + needed == blocks
    && Total(pending) - needed == Total(whole) - blocks
    && Expand(buffer) + Expand(pending) == Expand(whole)
  }

  lemma ConsFacts(r: Range, rest: seq<Range>)
    ensures Total([r] + rest) == Length(r) + Total(rest) && Expand([r] + rest) == Interval(r) + Expand(rest)
    ensures NonEmptyRanges([r] + rest) <==> r.first < r.second && NonEmptyRanges(rest)
  {
    var all := [r] + rest;
    assert all[0] == r && all[1..] == rest;
    assert forall i :: 0 <= i < |rest| ==> rest[i] == all[i + 1];
  }

  lemma Assoc<T>(x: seq<T>, y: seq<T>, z: seq<T>)
    ensures (x + y) + z == x + (y + z)
  {
  }

  lemma IntervalSplits(r: Range, n: nat)
    requires n < Length(r)
    ensures Interval(r) == Interval(Range(r.first, r.first + n)) + Interval(Range(r.first + n, r.second))
  {
  }

  lemma TakeRange(whole: seq<Range>, blocks: nat, buffer: seq<Range>, needed: nat, r: Range, rest: seq<Range>)
    requires Filling(whole, blocks, buffer, needed, [r] + rest) && Length(r) <= needed
    ensures Filling(whole, blocks, buffer + [r], needed - Length(r), rest)
  {
    ConsFacts(r, rest);
    ExpandSnoc(buffer, r);
    Assoc(Expand(buffer), Interval(r), Expand(rest));
  }

  lemma SplitRange(whole: seq<Range>, blocks: nat, buffer: seq<Range>, needed: nat, r: Range, rest: seq<Range>)
    requires Filling(whole, blocks, buffer, needed, [r] + rest) && 0 < needed < Length(r)
    ensures Filling(whole, blocks, buffer + [Range(r.first, r.first + needed)], 0,
                    [Range(r.first + needed, r.second)] + rest)
  {
    var part, tail := Range(r.first, r.first + needed), Range(r.first + needed, r.second);
    ConsFacts(r, rest);
    ConsFacts(tail, rest);
    ExpandSnoc(buffer, part);
    IntervalSplits(r, needed);
    Assoc(Expand(buffer), Interval(part), Interval(tail) + Expand(rest));
    Assoc(Interval(part), Interval(tail), Expand(rest));
  }

  /** The first i ranges of the sorted list have been merged; x is still open. */
  ghost predicate Merging(temp: seq<Range>, i: nat, ranges: seq<Range>, x: Range) {
    && 1 <= i <= |temp| && IsSorted(temp) && NonEmptyRanges(temp)
    && x.first < x.second && Canonical(ranges + [x]) && temp[i - 1].first >= x.first
    && forall b: nat :: Covers(ranges + [x], b) <==> Covers(temp[..i], b)
  }

  lemma MergingStep(temp: seq<Range>, i: nat, ranges: seq<Range>, x: Range)
    requires Merging(temp, i, ranges, x) && i < |temp|
    ensures temp[i].first <= x.second ==> Merging(temp, i + 1, ranges, Widened(x, temp[i]))
    ensures temp[i].first > x.second ==> Merging(temp, i + 1, ranges + [x], temp[i])
  {
    hide Covers;
    assert Leq(temp[i - 1], temp[i]);
    assert temp[..i + 1] == temp[..i] + [temp[i]];
    CoversSnocAll(temp[..i], temp[i]);
    if temp[i].first <= x.second {
      MergeWidens(ranges, x, temp[i]);
    } else {
      MergeAppends(ranges, x, temp[i]);
    }
  }

  lemma MergingStarts(temp: seq<Range>)
    requires temp != [] && IsSorted(temp) && NonEmptyRanges(temp)
    ensures Merging(temp, 1, [], temp[0])
  {
    assert [] + [temp[0]] == temp[..1];
  }

  lemma MergingEnds(temp: seq<Range>, ranges: seq<Range>, x: Range)
    requires Merging(temp, |temp|, ranges, x)
    ensures Canonical(ranges + [x]) && forall b: nat :: Covers(ranges + [x], b) <==> Covers(temp, b)
  {
    assert temp[..|temp|] == temp;
  }

  /** The merging loop of Insert: trim overlaps of a sorted list. */
  method MergeSorted(temp: seq<Range>) returns (ranges: seq<Range>, blocks: nat)
    requires temp != [] && IsSorted(temp) && NonEmptyRanges(temp)
    ensures Canonical(ranges) && blocks == Total(ranges)
    ensures forall b: nat :: Covers(ranges, b) <==> Covers(temp, b)
  {
    hide IsSorted, Canonical, Covers, Expand;
    ranges, blocks := [], 0;
    var toInsert, i := temp[0], 1;
    MergingStarts(temp);
    while i < |temp|
      invariant 1 <= i <= |temp| && blocks == Total(ranges) && Merging(temp, i, ranges, toInsert)
    {
      MergingStep(temp, i, ranges, toInsert);
      if temp[i].first <= toInsert.second {
        toInsert := Widened(toInsert, temp[i]);
      } else {
        ExpandSnoc(ranges, toInsert);
        ranges := ranges + [toInsert];
        blocks := blocks + (toInsert.second - toInsert.first);
        toInsert := temp[i];
      }
      i := i + 1;
    }
    MergingEnds(temp, ranges, toInsert);
    ExpandSnoc(ranges, toInsert);
    ranges := ranges + [toInsert];
    blocks := blocks + (toInsert.second - toInsert.first);
  }

  /** The loops of Overlaps: compare every pair of ranges. */
  method RangesOverlap(ranges: seq<Range>, other: seq<Range>) returns (r: bool)
    requires NonEmptyRanges(ranges) && NonEmptyRanges(other)
    ensures r <==> exists b: nat :: Covers(ranges, b) && Covers(other, b)
  {
    var i := 0;
    while i < |ranges|
      invariant i <= |ranges|
      invariant forall p, q :: 0 <= p < i && 0 <= q < |other| ==> Apart(ranges[p], other[q])
    {
      var j := 0;
      while j < |other|
        invariant j <= |other|
        invariant forall q :: 0 <= q < j ==> Apart(ranges[i], other[q])
      {
        if !Apart(ranges[i], other[j]) {
          var b := if ranges[i].first < other[j].first then other[j].first else ranges[i].first;
          assert Covers(ranges, b) && Covers(other, b);
          return true;
        }
        j := j + 1;
      }
      i := i + 1;
    }
    return false;
  }

  predicate Apart(a: Range, b: Range) {
    b.first >= a.second || a.first >= b.second
  }

  lemma CoversSnoc(rs: seq<Range>, r: Range, b: nat)
    ensures Covers(rs + [r], b) <==> Covers(rs, b) || r.first <= b < r.second
  {
    CoversAppend(rs, [r], b);
    if r.first <= b < r.second { assert [r][0].first <= b < [r][0].second; }
  }

  lemma CoversSnocAll(rs: seq<Range>, r: Range)
    ensures forall b: nat :: Covers(rs + [r], b) <==> Covers(rs, b) || r.first <= b < r.second
  {
    forall b: nat ensures Covers(rs + [r], b) <==> Covers(rs, b) || r.first <= b < r.second {
      CoversSnoc(rs, r, b);
    }
  }

  function Widened(r: Range, x: Range): Range {
    Range(r.first, if r.second < x.second then x.second else r.second)
  }

  lemma MergeWidens(rs: seq<Range>, r: Range, x: Range)
    requires Canonical(rs + [r]) && r.first <= x.first <= r.second && x.first < x.second
    ensures Canonical(rs + [Widened(r, x)])
    ensures forall b: nat :: Covers(rs + [Widened(r, x)], b) <==> Covers(rs + [r], b) || x.first <= b < x.second
  {
    var done, wide := rs + [r], rs + [Widened(r, x)];
    CoversSnocAll(rs, r);
    CoversSnocAll(rs, Widened(r, x));
    forall i, j | 0 <= i < j < |wide| ensures wide[i].second < wide[j].first {
      assert done[i].second < done[j].first;
    }
    forall i | 0 <= i < |wide| ensures wide[i].first < wide[i].second {
      assert done[i].first < done[i].second;
    }
  }

  lemma MergeAppends(rs: seq<Range>, r: Range, x: Range)
    requires Canonical(rs + [r]) && r.second < x.first < x.second
    ensures Canonical(rs + [r] + [x])
    ensures forall b: nat :: Covers(rs + [r] + [x], b) <==> Covers(rs + [r], b) || x.first <= b < x.second
  {
    var done := rs + [r];
    CoversSnocAll(done, x);
    forall i | 0 <= i < |done| ensures done[i].second < x.first {
      assert i < |rs| ==> done[i].second < done[|rs|].first;
      assert done[i].first < done[i].second;
    }
  }

  lemma CoversAppend(a: seq<Range>, c: seq<Range>, b: nat)
    ensures Covers(a + c, b) <==> Covers(a, b) || Covers(c, b)
  {
    if Covers(a, b) {
      var i :| 0 <= i < |a| && a[i].first <= b < a[i].second;
      assert (a + c)[i] == a[i];
    }
    if Covers(c, b) {
      var i :| 0 <= i < |c| && c[i].first <= b < c[i].second;
      assert (a + c)[|a| + i] == c[i];
    }
  }

  lemma SameRanges(a: seq<Range>, b: seq<Range>)
    requires multiset(a) == multiset(b) && NonEmptyRanges(b)
    ensures NonEmptyRanges(a) && |a| == |b|
  {
    assert |multiset(a)| == |a| && |multiset(b)| == |b|;
    forall i | 0 <= i < |a| ensures a[i].first < a[i].second {
      assert a[i] in multiset(b);
      var j :| 0 <= j < |b| && b[j] == a[i];
    }
  }

  // ---------- even distribution ----------

  /** The first `extra` groups hold one block more than the others. */
  function GroupSize(mean: nat, extra: nat, k: nat): nat {
    mean + if k < extra then 1 else 0
  }

  /** Blocks handed out to the first k groups. */
  function Handed(mean: nat, extra: nat, k: nat): nat {
    if k == 0 then 0 else Handed(mean, extra, k - 1) + GroupSize(mean, extra, k - 1)
  }

  lemma {:induction false} HandedClosedForm(mean: nat, extra: nat, k: nat)
    ensures Handed(mean, extra, k) == k * mean + if k < extra then k else extra
  {
    if k > 0 {
      HandedClosedForm(mean, extra, k - 1);
      assert k * mean == (k - 1) * mean + mean;
    }
  }

  lemma {:induction false} HandedGrows(mean: nat, extra: nat, k: nat, n: nat)
    requires k <= n
    ensures Handed(mean, extra, k) <= Handed(mean, extra, n)
  {
    if k < n { HandedGrows(mean, extra, k, n - 1); }
  }

  /** All groups together hold every block. */
  lemma HandedAll(blocks: nat, groups: nat)
    requires 0 < groups
    ensures Handed(blocks / groups, blocks % groups, groups) == blocks
  {
    HandedClosedForm(blocks / groups, blocks % groups, groups);
  }

  /** The blocks of a list of groups, group after group. */
  ghost function ExpandAll(groups: seq<seq<Range>>): seq<nat> {
    if groups == [] then [] else ExpandAll(groups[..|groups| - 1]) + Expand(groups[|groups| - 1])
  }
}
