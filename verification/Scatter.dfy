/** MoveRange: spreading packed blocks over the locations a range list gives, possibly inside one
    and the same buffer. */
module Scatter {
  import opened Basics
  import opened RangeSets

  ghost predicate InBounds(locs: seq<nat>, n: nat) {
    forall i :: 0 <= i < |locs| ==> locs[i] < n
  }

  /** Element q of `data` goes to position locs[q], in order. */
  function Put<T>(buf: seq<T>, locs: seq<nat>, data: seq<T>): (r: seq<T>)
    requires |locs| == |data| && InBounds(locs, |buf|)
    ensures |r| == |buf|
  {
    if locs == [] then buf
    else
      var n := |locs| - 1;
      Put(buf, locs[..n], data[..n])[locs[n] := data[n]]
  }

  function Gather<T>(dev: seq<T>, locs: seq<nat>): (r: seq<T>)
    requires InBounds(locs, |dev|)
    ensures |r| == |locs|
  {
    seq(|locs|, i requires 0 <= i < |locs| => dev[locs[i]])
  }

  ghost predicate Distinct(locs: seq<nat>) {
    forall i, j :: 0 <= i < j < |locs| ==> locs[i] != locs[j]
  }

  lemma {:induction false} PutElsewhere<T>(buf: seq<T>, locs: seq<nat>, data: seq<T>, p: nat)
    requires |locs| == |data| && InBounds(locs, |buf|)
    requires p < |buf| && p !in locs
    ensures Put(buf, locs, data)[p] == buf[p]
  {
    if locs != [] {
      PutElsewhere(buf, locs[..|locs| - 1], data[..|locs| - 1], p);
    }
  }

  lemma {:induction false} PutHere<T>(buf: seq<T>, locs: seq<nat>, data: seq<T>, q: nat)
    requires |locs| == |data| && InBounds(locs, |buf|)
    requires Distinct(locs) && q < |locs|
    ensures Put(buf, locs, data)[locs[q]] == data[q]
  {
    if q < |locs| - 1 {
      PutHere(buf, locs[..|locs| - 1], data[..|locs| - 1], q);
    }
  }

  /** What Put leaves at a written position does not depend on the buffer it started from. */
  lemma {:induction false} PutCovers<T>(a: seq<T>, b: seq<T>, locs: seq<nat>, data: seq<T>, p: nat)
    requires |locs| == |data| && InBounds(locs, |a|) && InBounds(locs, |b|)
    requires p < |a| && p < |b| && (p in locs || a[p] == b[p])
    ensures Put(a, locs, data)[p] == Put(b, locs, data)[p]
  {
    if locs != [] {
      var n := |locs| - 1;
      if locs[n] != p {
        assert p in locs ==> p in locs[..n];
        PutCovers(a, b, locs[..n], data[..n], p);
      }
    }
  }

  /** Reading back what was written. */
  lemma GatherPut<T>(buf: seq<T>, locs: seq<nat>, data: seq<T>)
    requires |locs| == |data| && InBounds(locs, |buf|) && Distinct(locs)
    ensures Gather(Put(buf, locs, data), locs) == data
  {
    forall q | 0 <= q < |locs| ensures Put(buf, locs, data)[locs[q]] == data[q] {
      PutHere(buf, locs, data, q);
    }
  }

  lemma {:induction false} PutSplits<T>(buf: seq<T>, la: seq<nat>, lb: seq<nat>, da: seq<T>, db: seq<T>)
    requires |la| == |da| && |lb| == |db| && InBounds(la, |buf|) && InBounds(lb, |buf|)
    ensures Put(buf, la + lb, da + db) == Put(Put(buf, la, da), lb, db)
  {
    if lb == [] {
      assert la + lb == la && da + db == da;
    } else {
      var n := |lb| - 1;
      PutSplits(buf, la, lb[..n], da, db[..n]);
      assert (la + lb)[..|la| + n] == la + lb[..n] && (da + db)[..|da| + n] == da + db[..n];
    }
  }

  lemma PutInterval<T>(buf: seq<T>, r: Range, data: seq<T>)
    requires Length(r) == |data| && r.first + |data| <= |buf|
    ensures Put(buf, Interval(r), data) == Overwrite(buf, r.first, data)
  {
    forall p: nat | r.first <= p < r.first + |data| ensures p in Interval(r) {
      assert Interval(r)[p - r.first] == p;
    }
    PutIs(buf, Interval(r), data, Overwrite(buf, r.first, data));
  }

  function Overwrite<T>(buf: seq<T>, at: nat, data: seq<T>): (r: seq<T>)
    requires at + |data| <= |buf|
    ensures |r| == |buf|
  {
    buf[..at] + data + buf[at + |data|..]
  }

  // ---------- the backward move ----------

  ghost predicate Within(rs: seq<Range>, n: nat) {
    NonEmptyRanges(rs) && forall i :: 0 <= i < |rs| ==> rs[i].second <= n
  }

  /** Ranges in increasing order; neighbours may touch. */
  ghost predicate Ascending(rs: seq<Range>) {
    NonEmptyRanges(rs) && forall i, j :: 0 <= i < j < |rs| ==> rs[i].second <= rs[j].first
  }

  lemma {:induction false} ExpandWithin(rs: seq<Range>, n: nat)
    requires Within(rs, n)
    ensures |Expand(rs)| == Total(rs) && InBounds(Expand(rs), n)
  {
    ExpandLength(rs);
    forall i | 0 <= i < |Expand(rs)| ensures Expand(rs)[i] < n {
      ExpandCovers(rs, Expand(rs)[i]);
    }
  }

  /** Ascending ranges visit strictly increasing blocks, so block q is at location q or later. */
  lemma {:induction false} AscendingExpands(rs: seq<Range>)
    requires Ascending(rs)
    ensures forall i, j :: 0 <= i < j < |Expand(rs)| ==> Expand(rs)[i] < Expand(rs)[j]
  {
    if rs != [] {
      var rest, head, tail := rs[1..], Interval(rs[0]), Expand(rs[1..]);
      AscendingExpands(rest);
      forall k | 0 <= k < |tail| ensures rs[0].second <= tail[k] {
        ExpandCovers(rest, tail[k]);
        var i :| 0 <= i < |rest| && rest[i].first <= tail[k] < rest[i].second;
        assert rest[i] == rs[i + 1];
      }
      forall i, j | 0 <= i < j < |Expand(rs)| ensures Expand(rs)[i] < Expand(rs)[j] {
        if |head| <= i { assert tail[i - |head|] < tail[j - |head|]; }
        else if |head| <= j { assert rs[0].second <= tail[j - |head|]; }
      }
    }
  }

  lemma {:induction false} IncreasingDominates(s: seq<nat>, q: nat)
    requires (forall i, j :: 0 <= i < j < |s| ==> s[i] < s[j]) && q < |s|
    ensures q <= s[q]
  {
    if q > 0 {
      IncreasingDominates(s, q - 1);
      assert s[q - 1] < s[q];
    }
  }

  /** Number of blocks in the first k ranges. */
  function Before(rs: seq<Range>, k: nat): nat
    requires k <= |rs|
  {
    if k == 0 then 0 else Before(rs, k - 1) + Length(rs[k - 1])
  }

  /** The blocks of the first k ranges. */
  function Head(rs: seq<Range>, k: nat): seq<nat>
    requires k <= |rs|
  {
    if k == 0 then [] else Head(rs, k - 1) + Interval(rs[k - 1])
  }

  lemma {:induction false} HeadIsExpand(rs: seq<Range>, k: nat)
    requires k <= |rs|
    ensures Head(rs, k) == Expand(rs[..k]) && |Head(rs, k)| == Before(rs, k)
  {
    if k > 0 {
      HeadIsExpand(rs, k - 1);
      ExpandPrefix(rs, k - 1);
    }
  }

  lemma HeadAll(rs: seq<Range>)
    ensures Head(rs, |rs|) == Expand(rs)
  {
    HeadIsExpand(rs, |rs|);
    assert rs[..|rs|] == rs;
  }

  lemma {:induction false} BeforeIsTotal(rs: seq<Range>, k: nat)
    requires k <= |rs|
    ensures Before(rs, k) == Total(rs[..k])
  {
    if k > 0 {
      BeforeIsTotal(rs, k - 1);
      ExpandPrefix(rs, k - 1);
    }
  }

  lemma BeforeAll(rs: seq<Range>)
    ensures Before(rs, |rs|) == Total(rs)
  {
    BeforeIsTotal(rs, |rs|);
    assert rs[..|rs|] == rs;
  }

  lemma ExpandParts(rs: seq<Range>, k: nat)
    requires k < |rs|
    ensures Expand(rs) == Expand(rs[..k]) + Interval(rs[k]) + Expand(rs[k + 1..])
  {
    ExpandPrefix(rs, k);
    assert rs == rs[..k + 1] + rs[k + 1..];
    ExpandAppend(rs[..k + 1], rs[k + 1..]);
  }

  /** Position of range k in the visiting order. */
  lemma ExpandAt(rs: seq<Range>, k: nat)
    requires k < |rs|
    ensures Before(rs, k) + Length(rs[k]) <= |Expand(rs)|
    ensures Expand(rs)[Before(rs, k)..Before(rs, k) + Length(rs[k])] == Interval(rs[k])
  {
    var x, y, z := Expand(rs[..k]), Interval(rs[k]), Expand(rs[k + 1..]);
    assert |x| == Before(rs, k) by {
      BeforeIsTotal(rs, k);
      ExpandLength(rs[..k]);
    }
    assert Expand(rs) == x + y + z by { ExpandParts(rs, k); }
    MiddleSlice(x, y, z);
  }

  lemma MiddleSlice<T>(x: seq<T>, y: seq<T>, z: seq<T>)
    ensures (x + y + z)[|x|..|x| + |y|] == y
  {
  }

  /** Put is determined by what it leaves at the written and at the other positions. */
  lemma PutIs<T>(buf: seq<T>, locs: seq<nat>, data: seq<T>, r: seq<T>)
    requires |locs| == |data| && InBounds(locs, |buf|) && Distinct(locs) && |r| == |buf|
    requires forall q :: 0 <= q < |locs| ==> r[locs[q]] == data[q]
    requires forall p :: 0 <= p < |buf| && p !in locs ==> r[p] == buf[p]
    ensures r == Put(buf, locs, data)
  {
    forall p | 0 <= p < |buf| ensures r[p] == Put(buf, locs, data)[p] {
      if q :| 0 <= q < |locs| && locs[q] == p {
        PutHere(buf, locs, data, q);
      } else {
        PutElsewhere(buf, locs, data, p);
      }
    }
  }

  /** Packed blocks start.. are at their locations, every other position is untouched. */
  ghost predicate Moved<T>(before: seq<T>, packed: seq<T>, e: seq<nat>, start: nat, now: seq<T>)
    requires |packed| == |e| && InBounds(e, |before|)
  {
    && |now| == |before|
    && (forall q :: start <= q < |e| ==> now[e[q]] == packed[q])
    && (forall p :: 0 <= p < |now| ==> now[p] == before[p] || exists q :: start <= q < |e| && e[q] == p)
  }

  lemma MovedStep<T>(before: seq<T>, packed: seq<T>, e: seq<nat>, r: Range, start: nat, now: seq<T>)
    requires |packed| == |e| && InBounds(e, |before|)
    requires forall i, j :: 0 <= i < j < |e| ==> e[i] < e[j]
    requires r.first < r.second && start + Length(r) <= |e| && e[start..start + Length(r)] == Interval(r)
    requires Moved(before, packed, e, start + Length(r), now)
    ensures start <= r.first && r.second <= |now|
    ensures Moved(before, packed, e, start, Overwrite(now, r.first, packed[start..start + Length(r)]))
  {
    var end := start + Length(r);
    forall q | start <= q < end ensures e[q] == r.first + (q - start) {
      assert e[q] == e[start..end][q - start];
    }
    IncreasingDominates(e, start);
    assert e[end - 1] == r.second - 1;
    var next := Overwrite(now, r.first, packed[start..end]);
    forall q | start <= q < |e| ensures next[e[q]] == packed[q] {
      if q >= end { assert e[end - 1] < e[q]; }
    }
    forall p | 0 <= p < |next| && next[p] != before[p] ensures exists q :: start <= q < |e| && e[q] == p {
      if r.first <= p < r.second {
        assert e[start + (p - r.first)] == p;
      } else {
        assert next[p] == now[p];
      }
    }
  }

  method Memmove<T>(dest: array<T>, to: nat, source: array<T>, from: nat, n: nat)
    requires to + n <= dest.Length && from + n <= source.Length
    modifies dest
    ensures dest[..] == Overwrite(old(dest[..]), to, old(source[..])[from..from + n])
  {
    forall i | 0 <= i < n {
      dest[to + i] := source[from + i];
    }
  }

  lemma OverwriteKeepsPrefix<T>(buf: seq<T>, at: nat, data: seq<T>, n: nat)
    requires at + |data| <= |buf| && n <= at
    ensures Overwrite(buf, at, data)[..n] == buf[..n]
  {
  }

  lemma PrefixSlices<T>(a: seq<T>, b: seq<T>, start: nat, n: nat)
    requires start + n <= |a| && start + n <= |b| && a[..start + n] == b[..start + n]
    ensures a[start..start + n] == b[start..start + n] && a[..start] == b[..start]
  {
    assert a[start..start + n] == a[..start + n][start..];
    assert b[start..start + n] == b[..start + n][start..];
    assert a[..start] == a[..start + n][..start];
    assert b[..start] == b[..start + n][..start];
  }

  /** Between two ranges: ranges k.. are in place and the packed blocks of the others are intact. */
  ghost predicate Moving<T>(before: seq<T>, packed: seq<T>, locs: seq<Range>, k: nat, start: nat,
                            dest: seq<T>, source: seq<T>)
  {
    && Ascending(locs) && Within(locs, |before|) && k <= |locs|
    && |packed| == |Expand(locs)| && InBounds(Expand(locs), |before|)
    && start == Before(locs, k) && Moved(before, packed, Expand(locs), start, dest)
    && start <= |packed| && start <= |source| && source[..start] == packed[..start]
  }

  lemma MovingStarts<T>(dest: seq<T>, locs: seq<Range>, source: seq<T>)
    requires Ascending(locs) && Within(locs, |dest|) && Total(locs) <= |source|
    ensures Moving(dest, source[..Total(locs)], locs, |locs|, Total(locs), dest, source)
  {
    BeforeAll(locs);
    ExpandWithin(locs, |dest|);
  }

  lemma MovingStep<T>(before: seq<T>, packed: seq<T>, locs: seq<Range>, k: nat, start: nat,
                      dest: seq<T>, source: seq<T>)
    requires k < |locs| && Moving(before, packed, locs, k + 1, start + Length(locs[k]), dest, source)
    ensures locs[k].second <= |dest| && start + Length(locs[k]) <= |source|
    ensures var next := Overwrite(dest, locs[k].first, source[start..start + Length(locs[k])]);
            && Moving(before, packed, locs, k, start, next, source)
            && (dest == source ==> Moving(before, packed, locs, k, start, next, next))
  {
    hide Expand, Overwrite, Interval, Moved;
    var r, e := locs[k], Expand(locs);
    ExpandAt(locs, k);
    AscendingExpands(locs);
    MovedStep(before, packed, e, r, start, dest);
    PrefixSlices(source, packed, start, Length(r));
    OverwriteKeepsPrefix(dest, r.first, source[start..start + Length(r)], start);
  }

  lemma MovingEnds<T>(before: seq<T>, packed: seq<T>, locs: seq<Range>, dest: seq<T>, source: seq<T>)
    requires Moving(before, packed, locs, 0, 0, dest, source)
    ensures dest == Put(before, Expand(locs), packed)
  {
    AscendingExpands(locs);
    PutIs(before, Expand(locs), packed, dest);
  }

  /** MoveRange: scatter the packed source over the locations.  Source and destination may be the
      same buffer; going backward then never reads a block that was already overwritten, so the
      result is the same as scattering an untouched copy. */
  method MoveRange<T>(dest: array<T>, locs: seq<Range>, source: array<T>)
    requires Ascending(locs) && Within(locs, dest.Length) && Total(locs) <= source.Length
    modifies dest
    ensures |Expand(locs)| == Total(locs) && InBounds(Expand(locs), dest.Length)
    ensures dest[..] == Put(old(dest[..]), Expand(locs), old(source[..])[..Total(locs)])
  {
    ghost var before, packed := dest[..], source[..][..Total(locs)];
    var start: nat, k := Total(locs), |locs|;
    MovingStarts(before, locs, source[..]);
    // Must do the movement backward.
    while k > 0
      invariant 0 <= k <= |locs| && Moving(before, packed, locs, k, start, dest[..], source[..])
    {
      k := k - 1;
      var range := locs[k];
      var blocks := range.second - range.first;
      start := start - blocks;
      MovingStep(before, packed, locs, k, start, dest[..], source[..]);
      Memmove(dest, range.first, source, start, blocks);
    }
    MovingEnds(before, packed, locs, dest[..], source[..]);
  }
}
