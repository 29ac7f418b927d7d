/**
 Ranges of sectors of one block device, and the allocator built on them.

 A `UsedMap` is the source's ordered map from the start of a range to its length;
 iterating it means visiting `SortedKeys(used.Keys)` in turn.
 */
module RangeAlloc {
  import opened Prelude

  type UsedMap = map<Sectors, Sectors>

  datatype Range = Range(start: Sectors, len: Sectors) {
    predicate Has(x: int) { start <= x < start + len }
  }

  datatype InsertError = StartBeyondLimit | Overflow | BeyondLimit | OverlapsPrevious | OverlapsNext | LimitsDiffer
  datatype Outcome = Ok | Err(error: InsertError)

  // ----- what a map of ranges means

  ghost predicate Covers(u: UsedMap, x: int) {
    exists k :: k in u && k <= x < k + u[k]
  }

  /** The four invariants: no empty, contiguous, overlapping or out of limit range. */
  ghost predicate Wf(limit: Sectors, u: UsedMap) {
    && (forall k | k in u :: 0 < u[k] && k + u[k] <= limit)
    && (forall j, k | j in u && k in u && j < k :: j + u[j] < k)
  }

  ghost predicate SameCover(u: UsedMap, v: UsedMap) {
    forall x :: Covers(u, x) <==> Covers(v, x)
  }

  /** Some sector of `r` is in use. */
  ghost predicate Overlaps(u: UsedMap, r: Range) {
    exists x :: r.Has(x) && Covers(u, x)
  }

  ghost predicate Disjoint(u: UsedMap, v: UsedMap) {
    forall x :: !(Covers(u, x) && Covers(v, x))
  }

  ghost predicate InLimit(limit: Sectors, r: Range) {
    r.start <= limit && (r.len != 0 ==> r.start + r.len <= limit)
  }

  /** `v` holds exactly the sectors of `u` and those of `r`. */
  ghost predicate AddsRange(u: UsedMap, r: Range, v: UsedMap) {
    forall x :: Covers(v, x) <==> Covers(u, x) || r.Has(x)
  }

  /** A start in one map is a start in any other map with the same sectors. */
  lemma SameStart(limit: Sectors, u: UsedMap, v: UsedMap, k: Sectors)
    requires Wf(limit, u) && Wf(limit, v) && SameCover(u, v)
    requires k in u
    ensures k in v && u[k] <= v[k]
  {
    assert Covers(u, k);
    assert Covers(v, k);
    var s :| s in v && s <= k < s + v[s];
    assert Covers(v, k - 1) == Covers(u, k - 1);
    assert Covers(v, s + v[s]) == Covers(u, s + v[s]);
  }

  /** Equal sets of sectors are represented by equal maps. */
  lemma Canonical(limit: Sectors, u: UsedMap, v: UsedMap)
    requires Wf(limit, u) && Wf(limit, v) && SameCover(u, v)
    ensures u == v
  {
    forall k | k in u ensures k in v && u[k] == v[k] {
      SameStart(limit, u, v, k);
      SameStart(limit, v, u, k);
    }
    forall k | k in v ensures k in u {
      SameStart(limit, v, u, k);
    }
  }

  // ----- insertion

  /** `prev` is the greatest key at or below `value`, `next` the least at or above it. */
  ghost predicate Located(u: UsedMap, value: Sectors, prev: Option<Sectors>, next: Option<Sectors>) {
    && (prev.Some? ==> prev.value in u && prev.value <= value)
    && (next.Some? ==> next.value in u && value <= next.value)
    && (forall k | k in u && k <= value :: prev.Some? && k <= prev.value)
    && (forall k | k in u && value <= k :: next.Some? && next.value <= k)
  }

  datatype Insertion =
    | Merged(prev: Option<Range>, res: Range, next: Option<Range>)
    | Refused(error: InsertError)

  function InsertionResult(limit: Sectors, u: UsedMap, prev: Option<Sectors>, next: Option<Sectors>, range: Range)
    : (r: Insertion)
    requires Wf(limit, u) && Located(u, range.start, prev, next)
    requires range.len != 0
    ensures r.Merged? && prev.Some? && r.prev.None? ==> r.res.start == prev.value
    ensures r.Merged? && prev.None? ==> r.prev.None?
    ensures r.Merged? && next.None? ==> r.next.None?
    ensures r.Merged? ==> range.start + range.len <= limit
  {
    var Range(start, len) := range;
    if start + len > U64_MAX then Refused(Overflow)
    else if start + len > limit then Refused(BeyondLimit)
    else if prev.Some? && prev.value + u[prev.value] > start then Refused(OverlapsPrevious)
    else
      var (lhs, mid) :=
        if prev.Some? then
          if prev.value + u[prev.value] == start
          then (None, Range(prev.value, u[prev.value] + len))
          else (Some(Range(prev.value, u[prev.value])), range)
        else (None, range);
      if next.None? then Merged(lhs, mid, None)
      else if mid.start + mid.len > next.value then Refused(OverlapsNext)
      else if mid.start + mid.len == next.value
      then Merged(lhs, Range(mid.start, mid.len + u[next.value]), None)
      else Merged(lhs, mid, Some(Range(next.value, u[next.value])))
  }

  /** The map left by the removals and the insertion that follow a successful merge. */
  function Spliced(u: UsedMap, prev: Option<Sectors>, next: Option<Sectors>, m: Insertion): UsedMap
    requires m.Merged?
  {
    var v := if prev.Some? && m.prev.None? then u - {prev.value} else u;
    var w := if next.Some? && m.next.None? then v - {next.value} else v;
    w[m.res.start := m.res.len]
  }

  /** Why an insertion is refused: the first of these that applies. */
  lemma RefusedWhy(limit: Sectors, u: UsedMap, prev: Option<Sectors>, next: Option<Sectors>, range: Range)
    requires Wf(limit, u) && Located(u, range.start, prev, next)
    requires range.len != 0
    ensures var m, end := InsertionResult(limit, u, prev, next, range), range.start + range.len;
            if end > U64_MAX then m == Refused(Overflow)
            else if end > limit then m == Refused(BeyondLimit)
            else if Covers(u, range.start) then m == Refused(OverlapsPrevious)
            else if Overlaps(u, range) then m == Refused(OverlapsNext)
            else m.Merged?
  {
    RefusedOverlaps(limit, u, prev, next, range);
    if Covers(u, range.start) {
      var k :| k in u && k <= range.start < k + u[k];
      assert prev.value == k;
    }
    if prev.Some? && prev.value + u[prev.value] > range.start { assert Covers(u, range.start); }
  }

  lemma RefusedOverlaps(limit: Sectors, u: UsedMap, prev: Option<Sectors>, next: Option<Sectors>, range: Range)
    requires Wf(limit, u) && Located(u, range.start, prev, next)
    requires range.len != 0
    ensures InsertionResult(limit, u, prev, next, range).Refused?
            <==> range.start + range.len > limit || Overlaps(u, range)
  {
    var m := InsertionResult(limit, u, prev, next, range);
    var start, end := range.start, range.start + range.len;
    if end <= limit {
      if prev.Some? && prev.value + u[prev.value] > start {
        assert range.Has(start) && Covers(u, start);
      } else if next.Some? && end > next.value {
        assert range.Has(next.value) && Covers(u, next.value);
      } else {
        forall x | Covers(u, x) ensures !range.Has(x) {
          var k :| k in u && k <= x < k + u[k];
        }
      }
    }
  }

  /**
   Once the checked addition has passed, every other sum that the insertion forms is within the
   limit: the end of the previous range, the end of the range merged with it, and the lengths merged.
   */
  lemma SumsFit(limit: Sectors, u: UsedMap, prev: Option<Sectors>, next: Option<Sectors>, range: Range)
    requires Wf(limit, u) && Located(u, range.start, prev, next)
    requires range.len != 0 && range.start + range.len <= limit
    ensures prev.Some? ==> prev.value + u[prev.value] <= limit
    ensures var merges := prev.Some? && prev.value + u[prev.value] == range.start;
            var midStart := if merges then prev.value else range.start;
            var midLen := if merges then u[prev.value] + range.len else range.len;
            && midLen <= limit && midStart + midLen <= limit
            && (next.Some? && midStart + midLen == next.value ==> midLen + u[next.value] <= limit)
  {
  }

  /** What the merged range is made of. */
  lemma MergedShape(limit: Sectors, u: UsedMap, prev: Option<Sectors>, next: Option<Sectors>, range: Range)
    requires Wf(limit, u) && Located(u, range.start, prev, next)
    requires range.len != 0 && InsertionResult(limit, u, prev, next, range).Merged?
    ensures var m := InsertionResult(limit, u, prev, next, range);
            var end := range.start + range.len;
            && (next.Some? ==> end <= next.value)
            && (prev.Some? ==> prev.value + u[prev.value] <= range.start)
            && m.res.start == (if prev.Some? && m.prev.None? then prev.value else range.start)
            && m.res.start + m.res.len == (if next.Some? && m.next.None? then next.value + u[next.value] else end)
            && (prev.Some? ==> (m.prev.None? <==> prev.value + u[prev.value] == range.start))
            && (next.Some? ==> (m.next.None? <==> end == next.value))
  {
  }

  lemma SplicedWf(limit: Sectors, u: UsedMap, prev: Option<Sectors>, next: Option<Sectors>, range: Range)
    requires Wf(limit, u) && Located(u, range.start, prev, next)
    requires range.len != 0 && InsertionResult(limit, u, prev, next, range).Merged?
    ensures Wf(limit, Spliced(u, prev, next, InsertionResult(limit, u, prev, next, range)))
  {
    MergedShape(limit, u, prev, next, range);
    SplicedAtWf(limit, u, prev, next, InsertionResult(limit, u, prev, next, range), range);
  }

  lemma SplicedAtWf(limit: Sectors, u: UsedMap, prev: Option<Sectors>, next: Option<Sectors>, m: Insertion, range: Range)
    requires Wf(limit, u) && Located(u, range.start, prev, next) && range.len > 0
    requires m.Merged?
    requires prev.Some? ==> prev.value + u[prev.value] <= range.start
    requires prev.Some? && m.prev.Some? ==> prev.value + u[prev.value] < range.start
    requires next.Some? && m.next.Some? ==> range.start + range.len < next.value
    requires m.res.start == if prev.Some? && m.prev.None? then prev.value else range.start
    requires m.res.start + m.res.len
             == if next.Some? && m.next.None? then next.value + u[next.value] else range.start + range.len
    requires range.start + range.len <= limit
    requires next.Some? ==> range.start + range.len <= next.value
    ensures Wf(limit, Spliced(u, prev, next, m))
  {
    var v, res := Spliced(u, prev, next, m), m.res;
    forall k | k in v && k != res.start
      ensures k in u && v[k] == u[k]
      ensures k < res.start ==> k + v[k] < res.start
      ensures res.start < k ==> res.start + res.len < k
    {
    }
  }

  lemma SplicedAdds(limit: Sectors, u: UsedMap, prev: Option<Sectors>, next: Option<Sectors>, range: Range)
    requires Wf(limit, u) && Located(u, range.start, prev, next)
    requires range.len != 0 && InsertionResult(limit, u, prev, next, range).Merged?
    ensures AddsRange(u, range, Spliced(u, prev, next, InsertionResult(limit, u, prev, next, range)))
  {
    MergedShape(limit, u, prev, next, range);
    var m := InsertionResult(limit, u, prev, next, range);
    var v := Spliced(u, prev, next, m);
    var res := m.res;
    assert res.start in v && v[res.start] == res.len;
    forall x ensures Covers(v, x) <==> Covers(u, x) || range.Has(x) {
      SplicedAt(u, prev, next, m, range, v, x);
    }
  }

  lemma SplicedAt(u: UsedMap, prev: Option<Sectors>, next: Option<Sectors>, m: Insertion, range: Range, v: UsedMap, x: int)
    requires m.Merged? && v == Spliced(u, prev, next, m)
    requires prev.Some? ==> prev.value in u
    requires next.Some? ==> next.value in u
    requires prev.Some? && m.prev.None? ==> prev.value + u[prev.value] == range.start
    requires next.Some? && m.next.None? ==> range.start + range.len == next.value
    requires m.res.start == if prev.Some? && m.prev.None? then prev.value else range.start
    requires m.res.start + m.res.len
             == if next.Some? && m.next.None? then next.value + u[next.value] else range.start + range.len
    requires m.res.start in u ==> prev == Some(m.res.start) && m.prev.None?
    ensures Covers(v, x) <==> Covers(u, x) || range.Has(x)
  {
    var res := m.res;
    assert res.start in v && v[res.start] == res.len;
    if Covers(v, x) {
      var k :| k in v && k <= x < k + v[k];
      if k != res.start { assert k in u; }
    }
    if Covers(u, x) {
      var k :| k in u && k <= x < k + u[k];
      if k in v { assert k <= x < k + v[k]; }
    }
  }

  // ----- ranges as ascending lists of sectors

  ghost function Span(start: int, len: int): (s: seq<int>)
    requires 0 <= len
    ensures |s| == len && forall i | 0 <= i < len :: s[i] == start + i
  {
    seq(len, i => start + i)
  }

  /** The sectors of a list of ranges, in list order. */
  ghost function Flatten(rs: seq<Range>): seq<int> {
    if rs == [] then [] else Span(rs[0].start, rs[0].len) + Flatten(rs[1..])
  }

  function SumLens(rs: seq<Range>): (n: nat)
    ensures n == |Flatten(rs)|
  {
    if rs == [] then 0 else rs[0].len + SumLens(rs[1..])
  }

  function RangesOf(ks: seq<Sectors>, u: UsedMap): (rs: seq<Range>)
    requires forall k | k in ks :: k in u
    ensures |rs| == |ks|
    ensures forall i | 0 <= i < |ks| :: rs[i] == Range(ks[i], u[ks[i]])
  {
    seq(|ks|, i requires 0 <= i < |ks| => Range(ks[i], u[ks[i]]))
  }

  /** The ranges of the map in iteration order. */
  function Ranges(u: UsedMap): seq<Range> {
    RangesOf(SortedKeys(u.Keys), u)
  }

  /** The number of sectors in all the ranges. */
  function Sum(u: UsedMap): nat {
    SumLens(Ranges(u))
  }

  ghost predicate InRanges(rs: seq<Range>, x: int) {
    exists i | 0 <= i < |rs| :: rs[i].Has(x)
  }

  ghost predicate Separated(rs: seq<Range>) {
    forall i, j | 0 <= i < j < |rs| :: rs[i].start + rs[i].len <= rs[j].start
  }

  lemma {:induction false} FlattenElems(rs: seq<Range>, x: int)
    ensures x in Flatten(rs) <==> InRanges(rs, x)
  {
    if rs != [] {
      FlattenElems(rs[1..], x);
      var span := Span(rs[0].start, rs[0].len);
      if rs[0].Has(x) { assert span[x - rs[0].start] == x; }
      if InRanges(rs[1..], x) {
        var i :| 0 <= i < |rs[1..]| && rs[1..][i].Has(x);
        assert rs[i + 1].Has(x);
      }
      if InRanges(rs, x) {
        var i :| 0 <= i < |rs| && rs[i].Has(x);
        if i > 0 { assert rs[1..][i - 1].Has(x); }
      }
    }
  }

  lemma {:induction false} FlattenAscending(rs: seq<Range>)
    requires Separated(rs)
    ensures Ascending(Flatten(rs))
  {
    if rs != [] {
      FlattenAscending(rs[1..]);
      forall x, y | x in Span(rs[0].start, rs[0].len) && y in Flatten(rs[1..])
        ensures x < y
      {
        FlattenElems(rs[1..], y);
      }
      AscendingConcat(Span(rs[0].start, rs[0].len), Flatten(rs[1..]));
    }
  }

  lemma {:induction false} FlattenConcat(a: seq<Range>, b: seq<Range>)
    ensures Flatten(a + b) == Flatten(a) + Flatten(b)
  {
    if a == [] {
      assert a + b == b;
    } else {
      assert (a + b)[0] == a[0] && (a + b)[1..] == a[1..] + b;
      FlattenConcat(a[1..], b);
      assert Flatten(a + b) == Span(a[0].start, a[0].len) + (Flatten(a[1..]) + Flatten(b));
    }
  }

  /** The ascending list of the unused sectors in `[lo, hi)`. */
  ghost function FreeFrom(u: UsedMap, lo: int, hi: int): seq<int>
    decreases hi - lo
  {
    if lo >= hi then [] else (if Covers(u, lo) then [] else [lo]) + FreeFrom(u, lo + 1, hi)
  }

  ghost function UsedFrom(u: UsedMap, lo: int, hi: int): seq<int>
    decreases hi - lo
  {
    if lo >= hi then [] else (if Covers(u, lo) then [lo] else []) + UsedFrom(u, lo + 1, hi)
  }

  /** The free sectors of a device, lowest first: what the allocator has left to hand out. */
  ghost function FreeSeq(limit: Sectors, u: UsedMap): seq<int> {
    FreeFrom(u, 0, limit)
  }

  lemma {:induction false} FreeFromElem(u: UsedMap, lo: int, hi: int, x: int)
    ensures x in FreeFrom(u, lo, hi) <==> lo <= x < hi && !Covers(u, x)
    ensures x in UsedFrom(u, lo, hi) <==> lo <= x < hi && Covers(u, x)
    decreases hi - lo
  {
    if lo < hi { FreeFromElem(u, lo + 1, hi, x); }
  }

  lemma {:induction false} FreeFromAscending(u: UsedMap, lo: int, hi: int)
    ensures Ascending(FreeFrom(u, lo, hi)) && Ascending(UsedFrom(u, lo, hi))
    ensures lo <= hi ==> |FreeFrom(u, lo, hi)| + |UsedFrom(u, lo, hi)| == hi - lo
    decreases hi - lo
  {
    if lo < hi {
      FreeFromAscending(u, lo + 1, hi);
      var free, used := FreeFrom(u, lo + 1, hi), UsedFrom(u, lo + 1, hi);
      forall x | x in free ensures lo < x { FreeFromElem(u, lo + 1, hi, x); }
      forall x | x in used ensures lo < x { FreeFromElem(u, lo + 1, hi, x); }
      AscendingConcat(if Covers(u, lo) then [] else [lo], FreeFrom(u, lo + 1, hi));
      AscendingConcat(if Covers(u, lo) then [lo] else [], UsedFrom(u, lo + 1, hi));
    }
  }

  lemma FreeFromElems(u: UsedMap, lo: int, hi: int)
    ensures forall x :: x in FreeFrom(u, lo, hi) <==> lo <= x < hi && !Covers(u, x)
    ensures forall x :: x in UsedFrom(u, lo, hi) <==> lo <= x < hi && Covers(u, x)
    ensures Ascending(FreeFrom(u, lo, hi)) && Ascending(UsedFrom(u, lo, hi))
    ensures lo <= hi ==> |FreeFrom(u, lo, hi)| + |UsedFrom(u, lo, hi)| == hi - lo
  {
    FreeFromAscending(u, lo, hi);
    forall x
      ensures x in FreeFrom(u, lo, hi) <==> lo <= x < hi && !Covers(u, x)
      ensures x in UsedFrom(u, lo, hi) <==> lo <= x < hi && Covers(u, x)
    {
      FreeFromElem(u, lo, hi, x);
    }
  }

  /** The free sectors are pinned down by being ascending and unused. */
  lemma FreeSeqIs(limit: Sectors, u: UsedMap, s: seq<int>)
    requires Ascending(s)
    requires forall x :: x in s <==> 0 <= x < limit && !Covers(u, x)
    ensures FreeSeq(limit, u) == s
  {
    FreeFromElems(u, 0, limit);
    AscendingUnique(FreeSeq(limit, u), s);
  }

  lemma RangesOfCover(limit: Sectors, u: UsedMap, ks: seq<Sectors>)
    requires Wf(limit, u) && SortedAs(ks, u.Keys)
    ensures forall x :: InRanges(RangesOf(ks, u), x) <==> Covers(u, x)
  {
  }

  lemma RangesOfSeparated(limit: Sectors, u: UsedMap, ks: seq<Sectors>)
    requires Wf(limit, u) && SortedAs(ks, u.Keys)
    ensures Separated(RangesOf(ks, u))
  {
  }

  lemma RangesCover(limit: Sectors, u: UsedMap)
    requires Wf(limit, u)
    ensures Separated(Ranges(u))
    ensures forall x :: InRanges(Ranges(u), x) <==> Covers(u, x)
  {
    RangesOfCover(limit, u, SortedKeys(u.Keys));
    RangesOfSeparated(limit, u, SortedKeys(u.Keys));
  }

  /** The ranges of a map, flattened, are its used sectors in ascending order. */
  lemma RangesAreUsed(limit: Sectors, u: UsedMap)
    requires Wf(limit, u)
    ensures Flatten(Ranges(u)) == UsedFrom(u, 0, limit)
  {
    RangesCover(limit, u);
    FlattenAscending(Ranges(u));
    FreeFromElems(u, 0, limit);
    forall x ensures x in Flatten(Ranges(u)) <==> x in UsedFrom(u, 0, limit) {
      FlattenElems(Ranges(u), x);
    }
    AscendingUnique(Flatten(Ranges(u)), UsedFrom(u, 0, limit));
  }

  /** Every sector is used or available and the two counts make up the limit. */
  lemma UsedPlusAvailable(limit: Sectors, u: UsedMap)
    requires Wf(limit, u)
    ensures Sum(u) + |FreeSeq(limit, u)| == limit
  {
    RangesAreUsed(limit, u);
    FreeFromElems(u, 0, limit);
  }
}
