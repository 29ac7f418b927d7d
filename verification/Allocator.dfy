/** The mutable range structures of one block device, proved against `RangeAlloc`. */
module Allocator {
  import opened Prelude
  import opened RangeAlloc

  class PerDevSegments {
    const limit: Sectors
    var used: UsedMap

    ghost predicate Valid() reads this { Wf(limit, used) }

    constructor (limit: Sectors)
      ensures this.limit == limit && used == map[] && Valid()
    {
      this.limit := limit;
      used := map[];
    }

    constructor Of(limit: Sectors, used: UsedMap)
      requires Wf(limit, used)
      ensures this.limit == limit && this.used == used && Valid()
    {
      this.limit := limit;
      this.used := used;
    }

    method LocatePrevAndNext(value: Sectors) returns (prev: Option<Sectors>, next: Option<Sectors>)
      ensures Located(used, value, prev, next)
      ensures prev.None? && next.None? <==> used == map[]
    {
      prev, next := None, None;
      var ks := SortedKeys(used.Keys);
      ghost var at := |ks|;
      for i := 0 to |ks|
        invariant next.None? && at == |ks|
        invariant forall j | 0 <= j < i :: ks[j] < value
        invariant prev == if i == 0 then None else Some(ks[i - 1])
      {
        if value >= ks[i] { prev := Some(ks[i]); }
        if value <= ks[i] {
          next := Some(ks[i]);
          at := i;
          break;
        }
      }
      LocatedByScan(used, value, ks, at, prev, next);
    }

    /** Succeeds exactly on in-limit ranges with no used sector, and then adds exactly those sectors. */
    method Insert(range: Range) returns (r: Outcome)
      requires Valid()
      modifies this`used
      ensures Valid()
      ensures r.Ok? <==> InLimit(limit, range) && !Overlaps(old(used), range)
      ensures r.Ok? ==> AddsRange(old(used), range, used)
      ensures r.Err? ==> used == old(used)
    {
      if range.start > limit { return Err(StartBeyondLimit); }
      if range.len == 0 { return Ok; }
      var prev, next := LocatePrevAndNext(range.start);
      RefusedOverlaps(limit, used, prev, next, range);
      var m := InsertionResult(limit, used, prev, next, range);
      if m.Refused? { return Err(m.error); }
      SplicedWf(limit, used, prev, next, range);
      SplicedAdds(limit, used, prev, next, range);
      MergedShape(limit, used, prev, next, range);
      if prev.Some? && m.prev.None? { used := used - {prev.value}; }
      if next.Some? && m.next.None? { used := used - {next.value}; }
      assert m.res.start !in used;  // nothing is displaced by the insertion
      used := used[m.res.start := m.res.len];
      return Ok;
    }

    /** All of the ranges are added or none is. */
    method InsertAll(ranges: seq<Range>) returns (r: Outcome)
      requires Valid()
      modifies this`used
      ensures Valid()
      ensures r.Ok? <==> AllInsertable(limit, old(used), ranges)
      ensures r.Ok? ==> forall x :: Covers(used, x) <==> Covers(old(used), x) || InRanges(ranges, x)
      ensures r.Err? ==> used == old(used)
    {
      var temp := new PerDevSegments(limit);
      for i := 0 to |ranges|
        invariant used == old(used) && temp.Valid()
        invariant AllInsertable(limit, map[], ranges[..i])
        invariant forall x :: Covers(temp.used, x) <==> InRanges(ranges[..i], x)
      {
        ghost var before := temp.used;
        r := temp.Insert(ranges[i]);
        PrefixStep(limit, ranges, i, before, temp.used, r.Ok?);
        if r.Err? { return r; }
      }
      assert ranges[..|ranges|] == ranges;
      InsertAllMeaning(limit, used, temp.used, ranges);
      var union;
      r, union := Union(temp);
      if r.Err? { return r; }
      used := union.used;
    }

    /** The free ranges: used where `this` is unused and the other way round. */
    method Complement() returns (c: PerDevSegments)
      requires Valid()
      ensures fresh(c) && c.limit == limit && c.Valid()
      ensures IsComplement(limit, used, c.used)
    {
      var free := FreeMap(limit, used);
      c := new PerDevSegments.Of(limit, free);
    }

    /** Succeeds exactly on operands with equal limits and no common sector. */
    method Union(other: PerDevSegments) returns (r: Outcome, union: PerDevSegments)
      requires Valid() && other.Valid()
      ensures fresh(union) && union.limit == limit && union.Valid()
      ensures r.Ok? <==> limit == other.limit && Disjoint(used, other.used)
      ensures r.Ok? ==> forall x :: Covers(union.used, x) <==> Covers(used, x) || Covers(other.used, x)
    {
      if limit != other.limit {
        union := new PerDevSegments(limit);
        return Err(LimitsDiffer), union;
      }
      r, union := UnionOf(limit, used, other.used);
    }
  }

  /** Insert the ranges of both maps into a new one, from the highest key down. */
  method UnionOf(limit: Sectors, u: UsedMap, v: UsedMap) returns (r: Outcome, union: PerDevSegments)
    requires Wf(limit, u) && Wf(limit, v)
    ensures fresh(union) && union.limit == limit && union.Valid()
    ensures r.Ok? <==> Disjoint(u, v)
    ensures r.Ok? ==> forall x :: Covers(union.used, x) <==> Covers(u, x) || Covers(v, x)
  {
    union := new PerDevSegments(limit);
    var keys := SortedKeys(u.Keys + v.Keys);
    UnionStart(u, v, keys);
    for i := |keys| downto 0
      invariant union.Valid()
      invariant UnionSoFar(u, v, keys[i..], union.used)
    {
      NextKey(keys, i);
      r := Absorb(union, u, v, keys[i], keys[i + 1..]);
      if r.Err? { return r, union; }
    }
    UnionDone(u, v, keys, union.used);
    return Ok, union;
  }

  lemma UnionStart(u: UsedMap, v: UsedMap, keys: seq<Sectors>)
    ensures UnionSoFar(u, v, keys[|keys|..], map[])
  {
    assert keys[|keys|..] == [];
  }

  lemma UnionDone(u: UsedMap, v: UsedMap, keys: seq<Sectors>, acc: UsedMap)
    requires SortedAs(keys, u.Keys + v.Keys) && UnionSoFar(u, v, keys[0..], acc)
    ensures Disjoint(u, v)
    ensures forall x :: Covers(acc, x) <==> Covers(u, x) || Covers(v, x)
  {
    assert keys[0..] == keys;
    AllKeysDone(u, v, keys, acc);
  }

  lemma NextKey(keys: seq<Sectors>, i: nat)
    requires i < |keys| && forall a, b | 0 <= a < b < |keys| :: keys[a] < keys[b]
    ensures [keys[i]] + keys[i + 1..] == keys[i..] && keys[i] !in keys[i + 1..]
  {
  }

  ghost predicate IsComplement(limit: Sectors, u: UsedMap, free: UsedMap) {
    && Wf(limit, free)
    && forall x :: Covers(free, x) <==> 0 <= x < limit && !Covers(u, x)
  }

  /** The gaps between the ranges of `u`, collected in one pass over its keys. */
  method FreeMap(limit: Sectors, u: UsedMap) returns (free: UsedMap)
    requires Wf(limit, u)
    ensures IsComplement(limit, u, free)
  {
    free := map[];
    var prevEnd: Sectors := 0;
    var ks := SortedKeys(u.Keys);
    ComplementStart(limit, u, ks);
    for i := 0 to |ks|
      invariant ComplementScan(limit, u, ks, i, free, prevEnd)
    {
      var start, len := ks[i], u[ks[i]];
      ComplementStep(limit, u, ks, i, free, prevEnd);
      free := AddGap(free, prevEnd, start);
      prevEnd := start + len;
    }
    ComplementEnd(limit, u, ks, free, prevEnd);
    free := AddGap(free, prevEnd, limit);
  }

  /** Record `[lo, hi)` as free unless it is empty. */
  function AddGap(free: UsedMap, lo: Sectors, hi: Sectors): UsedMap
    requires lo <= hi
  {
    if hi - lo != 0 then free[lo := hi - lo] else free
  }

  lemma ComplementStart(limit: Sectors, u: UsedMap, ks: seq<Sectors>)
    requires Wf(limit, u) && SortedAs(ks, u.Keys)
    ensures ComplementScan(limit, u, ks, 0, map[], 0)
  {
  }

  /** `free` is the complement of `u` up to `end`, and its ranges stop short of `end`. */
  ghost predicate ComplementBelow(limit: Sectors, u: UsedMap, free: UsedMap, end: int) {
    && end <= limit
    && Wf(limit, free)
    && (forall k | k in free :: k + free[k] < end)
    && (forall x :: Covers(free, x) <==> 0 <= x < end && !Covers(u, x))
  }

  /** The state of the scan after the first `i` keys. */
  ghost predicate ComplementScan(limit: Sectors, u: UsedMap, ks: seq<Sectors>, i: nat, free: UsedMap, prevEnd: int) {
    && SortedAs(ks, u.Keys) && i <= |ks|
    && 0 <= prevEnd <= limit
    && prevEnd == EndBefore(u, ks, i)
    && (i < |ks| ==> prevEnd <= ks[i] && ks[i] + u[ks[i]] <= limit)
    && ComplementBelow(limit, u, free, prevEnd)
  }

  ghost function EndBefore(u: UsedMap, ks: seq<Sectors>, i: nat): int
    requires SortedAs(ks, u.Keys) && i <= |ks|
  {
    if i == 0 then 0 else ks[i - 1] as int + u[ks[i - 1]] as int
  }

  /** Between the end of one range and the start of the next nothing is used. */
  lemma ScanGap(limit: Sectors, u: UsedMap, ks: seq<Sectors>, i: nat)
    requires Wf(limit, u) && SortedAs(ks, u.Keys) && i <= |ks|
    ensures forall x | EndBefore(u, ks, i) <= x && (i < |ks| ==> x < ks[i]) :: !Covers(u, x)
    ensures i < |ks| ==> EndBefore(u, ks, i) <= ks[i] && (i > 0 ==> EndBefore(u, ks, i) < ks[i])
  {
    var prevEnd := EndBefore(u, ks, i);
    if 0 < i { assert ks[i - 1] in u; }
    if i < |ks| { assert ks[i] in u; }
    forall x | prevEnd <= x && (i < |ks| ==> x < ks[i]) ensures !Covers(u, x) {
      forall k | k in u ensures !(k <= x < k + u[k]) {
        assert k in ks;
        var j :| 0 <= j < |ks| && ks[j] == k;
      }
    }
  }

  lemma ComplementStep(limit: Sectors, u: UsedMap, ks: seq<Sectors>, i: nat, free: UsedMap, prevEnd: Sectors)
    requires Wf(limit, u) && i < |ks| && ComplementScan(limit, u, ks, i, free, prevEnd)
    ensures ComplementScan(limit, u, ks, i + 1, AddGap(free, prevEnd, ks[i]), ks[i] + u[ks[i]])
  {
    var start := ks[i];
    ScanGap(limit, u, ks, i);
    assert start in u;
    AddGapCovers(limit, u, free, prevEnd, start);
    if i + 1 < |ks| {
      assert ks[i + 1] in u;
      ScanGap(limit, u, ks, i + 1);
    }
  }

  /** Passing over a used range after recording the gap before it. */
  lemma AddGapCovers(limit: Sectors, u: UsedMap, free: UsedMap, prevEnd: Sectors, start: Sectors)
    requires Wf(limit, u) && start in u && prevEnd <= start
    requires ComplementBelow(limit, u, free, prevEnd)
    requires forall x | prevEnd <= x && x < start :: !Covers(u, x)
    ensures ComplementBelow(limit, u, AddGap(free, prevEnd, start), start + u[start])
  {
    var free' := AddGap(free, prevEnd, start);
    assert prevEnd !in free;
    forall x ensures Covers(free', x) <==> 0 <= x < start + u[start] && !Covers(u, x) {
      CoversUpdate(free, prevEnd, start - prevEnd, x);
      if start <= x < start + u[start] { assert Covers(u, x); }
    }
  }

  lemma ComplementEnd(limit: Sectors, u: UsedMap, ks: seq<Sectors>, free: UsedMap, prevEnd: Sectors)
    requires Wf(limit, u) && ComplementScan(limit, u, ks, |ks|, free, prevEnd)
    ensures IsComplement(limit, u, AddGap(free, prevEnd, limit))
  {
    ScanGap(limit, u, ks, |ks|);
    var free' := AddGap(free, prevEnd, limit);
    assert prevEnd !in free;
    forall x ensures Covers(free', x) <==> 0 <= x < limit && !Covers(u, x) {
      CoversUpdate(free, prevEnd, limit - prevEnd, x);
    }
  }

  lemma CoversUpdate(u: UsedMap, k: Sectors, n: Sectors, x: int)
    requires k !in u
    ensures Covers(u[k := n], x) <==> Covers(u, x) || k <= x < k + n
  {
    var v := u[k := n];
    if Covers(u, x) {
      var j :| j in u && j <= x < j + u[j];
      assert j in v && v[j] == u[j];
    }
    if k <= x < k + n { assert k in v; }
  }

  /** `rs` can all be added to `u`: each in limit, none touching `u` or one another. */
  ghost predicate AllInsertable(limit: Sectors, u: UsedMap, rs: seq<Range>) {
    && (forall i | 0 <= i < |rs| :: InLimit(limit, rs[i]))
    && (forall i, x | 0 <= i < |rs| :: rs[i].Has(x) ==> !Covers(u, x))
    && (forall i, j, x | 0 <= i < j < |rs| :: rs[i].Has(x) ==> !rs[j].Has(x))
  }

  /** Adding one more range to an accumulated prefix, and what its refusal means. */
  lemma PrefixStep(limit: Sectors, rs: seq<Range>, i: nat, before: UsedMap, after: UsedMap, ok: bool)
    requires i < |rs|
    requires AllInsertable(limit, map[], rs[..i])
    requires forall x :: Covers(before, x) <==> InRanges(rs[..i], x)
    requires ok <==> InLimit(limit, rs[i]) && !Overlaps(before, rs[i])
    requires ok ==> AddsRange(before, rs[i], after)
    ensures ok ==> AllInsertable(limit, map[], rs[..i + 1])
    ensures ok ==> forall x :: Covers(after, x) <==> InRanges(rs[..i + 1], x)
    ensures !ok ==> forall u :: !AllInsertable(limit, u, rs)
  {
  }

  lemma InsertAllMeaning(limit: Sectors, u: UsedMap, temp: UsedMap, rs: seq<Range>)
    requires AllInsertable(limit, map[], rs)
    requires forall x :: Covers(temp, x) <==> InRanges(rs, x)
    ensures Disjoint(u, temp) <==> AllInsertable(limit, u, rs)
  {
  }

  /** One step of a union: insert the ranges of `u` and of `v` that start at `key`. */
  method Absorb(union: PerDevSegments, u: UsedMap, v: UsedMap, key: Sectors, ghost done: seq<Sectors>)
    returns (r: Outcome)
    requires union.Valid() && Wf(union.limit, u) && Wf(union.limit, v)
    requires UnionSoFar(u, v, done, union.used) && key !in done
    modifies union`used
    ensures union.Valid()
    ensures r.Ok? ==> UnionSoFar(u, v, [key] + done, union.used)
    ensures r.Err? ==> !Disjoint(u, v)
  {
    ghost var u0 := union.used;
    r := Ok;
    if key in u {
      r := union.Insert(Range(key, u[key]));
      if r.Err? {
        OverlapIsShared(union.limit, u, v, u0, done, key);
        return;
      }
    }
    ghost var u1 := union.used;
    if key in v {
      r := union.Insert(Range(key, v[key]));
      if r.Err? {
        forall x | Covers(u1, x) ensures CoversIn(v, done, x) || Covers(u, x) {}
        OverlapIsShared(union.limit, v, u, u1, done, key);
        return;
      }
    }
    UnionStep(u, v, done, key, u0, u1, union.used);
  }

  /** Where an in-order scan of the keys stops. */
  lemma LocatedByScan(u: UsedMap, value: Sectors, ks: seq<Sectors>, at: nat, prev: Option<Sectors>, next: Option<Sectors>)
    requires SortedAs(ks, u.Keys) && at <= |ks|
    requires forall j | 0 <= j < at :: ks[j] < value
    requires next == if at < |ks| then Some(ks[at]) else None
    requires at < |ks| ==> value <= ks[at]
    requires prev == if at < |ks| && ks[at] == value then Some(value)
                     else if at == 0 then None else Some(ks[at - 1])
    ensures Located(u, value, prev, next)
    ensures prev.None? && next.None? <==> u == map[]
  {
  }

  /** `x` is in a range of `u` that starts at one of `ks`. */
  ghost predicate CoversIn(u: UsedMap, ks: seq<Sectors>, x: int) {
    exists k :: k in ks && k in u && k <= x < k + u[k]
  }

  /** `acc` is the union of the ranges of `u` and of `v` that start in `ks`, and these are disjoint. */
  ghost predicate UnionSoFar(u: UsedMap, v: UsedMap, ks: seq<Sectors>, acc: UsedMap) {
    && (forall x :: Covers(acc, x) <==> CoversIn(u, ks, x) || CoversIn(v, ks, x))
    && (forall x :: !(CoversIn(u, ks, x) && CoversIn(v, ks, x)))
  }

  lemma CoversInCons(u: UsedMap, key: Sectors, ks: seq<Sectors>, x: int)
    ensures CoversIn(u, [key] + ks, x) <==> (key in u && Range(key, u[key]).Has(x)) || CoversIn(u, ks, x)
  {
  }

  lemma UnionStep(u: UsedMap, v: UsedMap, ks: seq<Sectors>, key: Sectors, a0: UsedMap, a1: UsedMap, a2: UsedMap)
    requires UnionSoFar(u, v, ks, a0)
    requires if key in u then AddsRange(a0, Range(key, u[key]), a1) && !Overlaps(a0, Range(key, u[key])) else a1 == a0
    requires if key in v then AddsRange(a1, Range(key, v[key]), a2) && !Overlaps(a1, Range(key, v[key])) else a2 == a1
    ensures UnionSoFar(u, v, [key] + ks, a2)
  {
    forall x
      ensures Covers(a2, x) <==> CoversIn(u, [key] + ks, x) || CoversIn(v, [key] + ks, x)
      ensures !(CoversIn(u, [key] + ks, x) && CoversIn(v, [key] + ks, x))
    {
      CoversInCons(u, key, ks, x);
      CoversInCons(v, key, ks, x);
      assert Covers(a0, x) || !Covers(a0, x);
      assert Covers(a1, x) || !Covers(a1, x);
    }
  }

  lemma AllKeysDone(u: UsedMap, v: UsedMap, ks: seq<Sectors>, acc: UsedMap)
    requires UnionSoFar(u, v, ks, acc)
    requires forall k | k in u || k in v :: k in ks
    ensures Disjoint(u, v)
    ensures forall x :: Covers(acc, x) <==> Covers(u, x) || Covers(v, x)
  {
    forall x
      ensures CoversIn(u, ks, x) <==> Covers(u, x)
      ensures CoversIn(v, ks, x) <==> Covers(v, x)
    {
    }
  }

  lemma OverlapIsShared(limit: Sectors, u: UsedMap, v: UsedMap, acc: UsedMap, ks: seq<Sectors>, key: Sectors)
    requires Wf(limit, u) && key in u
    requires Overlaps(acc, Range(key, u[key]))
    requires key !in ks
    requires forall x :: Covers(acc, x) ==> CoversIn(u, ks, x) || Covers(v, x)
    ensures !Disjoint(u, v)
  {
  }

  /** Taking the complement twice gives back the very same map. */
  method ComplementTwice(segs: PerDevSegments) returns (c: PerDevSegments)
    requires segs.Valid()
    ensures fresh(c) && c.limit == segs.limit && c.used == segs.used
  {
    var free := segs.Complement();
    c := free.Complement();
    forall x ensures Covers(c.used, x) <==> Covers(segs.used, x) {
      assert Covers(free.used, x) || !Covers(free.used, x);
    }
    Canonical(segs.limit, c.used, segs.used);
  }

  class RangeAllocator {
    var segments: PerDevSegments

    ghost predicate Valid() reads this, segments { segments.Valid() }

    constructor Of(limit: Sectors, used: UsedMap)
      requires Wf(limit, used)
      ensures Valid() && fresh(segments) && segments.limit == limit && segments.used == used
    {
      segments := new PerDevSegments.Of(limit, used);
    }

    function Available(): (n: Sectors)
      requires Valid()
      reads this, segments
      ensures n == |FreeSeq(segments.limit, segments.used)|
    {
      UsedPlusAvailable(segments.limit, segments.used);
      segments.limit - Sum(segments.used)
    }

    /** Takes exactly the lowest free sectors, as many as asked for or as there are. */
    method Request(amount: Sectors) returns (segs: PerDevSegments)
      requires Valid()
      modifies this
      ensures Valid() && fresh(segments) && fresh(segs) && segs.Valid()
      ensures segments.limit == segs.limit == old(segments.limit)
      ensures Taken(segments.limit, old(segments.used), amount, segs.used, segments.used)
    {
      var u, limit := segments.used, segments.limit;
      var comp := segments.Complement();
      var free := Ranges(comp.used);
      FreeIsFlat(limit, u, comp.used);
      segs := TakeLowest(limit, free, amount);
      ghost var n := Min(amount, |FreeSeq(limit, u)|);
      TakenMeaning(limit, u, free, n, segs.used);
      var r, union := segments.Union(segs);
      assert r.Ok?;  // what was taken was free
      RestIsFree(limit, u, amount, n, segs.used, union.used);
      segments := union;
    }

    method RequestAll() returns (segs: PerDevSegments)
      requires Valid()
      modifies this
      ensures Valid() && fresh(segments) && fresh(segs) && segs.Valid()
      ensures segments.limit == segs.limit == old(segments.limit)
      ensures Taken(segments.limit, old(segments.used), segments.limit, segs.used, segments.used)
    {
      var u, limit := segments.used, segments.limit;
      segs := segments.Complement();
      var temp := new PerDevSegments(limit);
      var r := temp.Insert(Range(0, limit));
      assert r.Ok?;  // nothing is in the way of a range over everything
      EverythingTaken(limit, u, segs.used, temp.used);
      segments := temp;
    }
  }

  lemma NothingFree(limit: Sectors, full: UsedMap)
    requires AddsRange(map[], Range(0, limit), full)
    ensures FreeSeq(limit, full) == []
  {
    var all, none: seq<int> := Range(0, limit), [];
    forall x ensures x in none <==> 0 <= x < limit && !Covers(full, x) {
      assert Covers(full, x) <==> Covers(map[], x) || all.Has(x);
    }
    FreeSeqIs(limit, full, none);
  }

  lemma FullCovers(limit: Sectors, u: UsedMap, taken: UsedMap, full: UsedMap)
    requires Wf(limit, u) && IsComplement(limit, u, taken)
    requires AddsRange(map[], Range(0, limit), full)
    ensures forall x :: Covers(full, x) <==> Covers(u, x) || Covers(taken, x)
  {
  }

  lemma EverythingTaken(limit: Sectors, u: UsedMap, taken: UsedMap, full: UsedMap)
    requires Wf(limit, u) && Wf(limit, full)
    requires IsComplement(limit, u, taken)
    requires AddsRange(map[], Range(0, limit), full)
    ensures Taken(limit, u, limit, taken, full)
  {
    FullCovers(limit, u, taken, full);
    FreeIsFlat(limit, u, taken);
    UsedPlusAvailable(limit, u);
    NothingFree(limit, full);
    AllTaken(limit, u, taken, full);
  }

  lemma AllTaken(limit: Sectors, u: UsedMap, taken: UsedMap, full: UsedMap)
    requires Wf(limit, taken) && Wf(limit, full)
    requires Flatten(Ranges(taken)) == FreeSeq(limit, u) && |FreeSeq(limit, u)| <= limit
    requires FreeSeq(limit, full) == []
    requires forall x :: Covers(full, x) <==> Covers(u, x) || Covers(taken, x)
    ensures Taken(limit, u, limit, taken, full)
  {
  }

  /** Collect the first `amount` sectors of a list of free ranges, or all of them. */
  method TakeLowest(limit: Sectors, free: seq<Range>, amount: Sectors) returns (segs: PerDevSegments)
    requires Separated(free) && forall i | 0 <= i < |free| :: InLimit(limit, free[i])
    ensures fresh(segs) && segs.limit == limit && segs.Valid()
    ensures PrefixTaken(free, Min(amount, |Flatten(free)|), segs.used)
  {
    segs := new PerDevSegments(limit);
    var needed := amount;
    for i := 0 to |free|
      invariant segs.Valid() && 0 <= needed <= amount
      invariant PrefixTaken(free, amount - needed, segs.used)
      invariant needed == 0 || amount - needed == |Flatten(free[..i])|
    {
      if needed == 0 { break; }
      var len := Min(needed, free[i].len);
      TakeFrom(segs, free, i, len);
      needed := needed - len;
    }
    assert free[..|free|] == free;
    assert amount - needed == Min(amount, |Flatten(free)|);
  }

  /** Move the first `len` sectors of the `i`-th free range into `segs`. */
  method TakeFrom(segs: PerDevSegments, free: seq<Range>, i: nat, len: Sectors)
    requires segs.Valid() && i < |free| && len <= free[i].len
    requires Separated(free) && InLimit(segs.limit, free[i])
    requires PrefixTaken(free, |Flatten(free[..i])|, segs.used)
    modifies segs`used
    ensures segs.Valid()
    ensures PrefixTaken(free, |Flatten(free[..i])| + len, segs.used)
    ensures len == free[i].len ==> |Flatten(free[..i])| + len == |Flatten(free[..i + 1])|
  {
    NextIsFree(free, i, len, segs.used);
    var r := segs.Insert(Range(free[i].start, len));
    assert r.Ok?;  // gaps do not overlap one another
    TakenStep(free, i, len, old(segs.used), segs.used);
  }

  /**
   `taken` is the first `amount` of the free sectors (all, if there are fewer) and
   `u'` is `u` with those added, so that the remaining free sectors are the rest of the list.
   */
  ghost predicate Taken(limit: Sectors, u: UsedMap, amount: nat, taken: UsedMap, u': UsedMap) {
    var free := FreeSeq(limit, u);
    var n := Min(amount, |free|);
    && Wf(limit, taken) && Wf(limit, u')
    && Flatten(Ranges(taken)) == free[..n]
    && FreeSeq(limit, u') == free[n..]
    && forall x :: Covers(u', x) <==> Covers(u, x) || Covers(taken, x)
  }

  /** What a request returns and leaves depends on nothing but the free sectors. */
  lemma TakenUnique(limit: Sectors, u: UsedMap, a: nat, b: nat, t: UsedMap, v: UsedMap, t': UsedMap, v': UsedMap)
    requires Taken(limit, u, a, t, v) && Taken(limit, u, b, t', v')
    requires Min(a, |FreeSeq(limit, u)|) == Min(b, |FreeSeq(limit, u)|)
    ensures t == t' && v == v'
  {
    RangesAreUsed(limit, t);
    RangesAreUsed(limit, t');
    FreeFromElems(t, 0, limit);
    FreeFromElems(t', 0, limit);
    forall x ensures Covers(t, x) <==> Covers(t', x) {
      assert x in UsedFrom(t, 0, limit) <==> x in UsedFrom(t', 0, limit);
    }
    Canonical(limit, t, t');
    Canonical(limit, v, v');
  }

  /** Taking all that is available and asking for all of it have the same result and the same effect. */
  method RequestAvailable(limit: Sectors, used: UsedMap) returns (all: UsedMap, avail: UsedMap, u1: UsedMap, u2: UsedMap)
    requires Wf(limit, used)
    ensures all == avail && u1 == u2 && FreeSeq(limit, u1) == []
  {
    var dup1 := new RangeAllocator.Of(limit, used);
    var dup2 := new RangeAllocator.Of(limit, used);
    var available := dup2.Available();
    var segs1 := dup1.RequestAll();
    var segs2 := dup2.Request(available);
    all, avail, u1, u2 := segs1.used, segs2.used, dup1.segments.used, dup2.segments.used;
    TakenUnique(limit, used, limit, available, all, u1, avail, u2);
  }

  ghost predicate PrefixTaken(free: seq<Range>, n: nat, t: UsedMap) {
    && n <= |Flatten(free)|
    && forall x :: Covers(t, x) <==> x in Flatten(free)[..n]
  }

  /** The ranges of the complement, flattened, are the free sectors. */
  lemma FreeIsFlat(limit: Sectors, u: UsedMap, comp: UsedMap)
    requires IsComplement(limit, u, comp)
    ensures Flatten(Ranges(comp)) == FreeSeq(limit, u)
    ensures Separated(Ranges(comp))
    ensures forall i | 0 <= i < |Ranges(comp)| :: InLimit(limit, Ranges(comp)[i])
  {
    RangesCover(limit, comp);
    RangesAreUsed(limit, comp);
    FreeFromElems(comp, 0, limit);
    FreeSeqIs(limit, u, UsedFrom(comp, 0, limit));
  }

  lemma FlatSplit(free: seq<Range>, i: nat)
    requires i < |free|
    ensures Flatten(free) == Flatten(free[..i]) + (Span(free[i].start, free[i].len) + Flatten(free[i + 1..]))
    ensures Flatten(free[..i + 1]) == Flatten(free[..i]) + Span(free[i].start, free[i].len)
  {
    assert free == free[..i] + free[i..];
    FlattenConcat(free[..i], free[i..]);
    assert free[..i + 1] == free[..i] + [free[i]];
    FlattenConcat(free[..i], [free[i]]);
    assert Flatten([free[i]]) == Span(free[i].start, free[i].len);
  }

  lemma NextIsFree(free: seq<Range>, i: nat, m: Sectors, t: UsedMap)
    requires Separated(free) && i < |free| && m <= free[i].len
    requires PrefixTaken(free, |Flatten(free[..i])|, t)
    ensures !Overlaps(t, Range(free[i].start, m))
  {
    FlatSplit(free, i);
    FlattenAscending(free);
    var flat, n := Flatten(free), |Flatten(free[..i])|;
    forall x | Range(free[i].start, m).Has(x) ensures !Covers(t, x) {
      assert flat[n + (x - free[i].start)] == x;
    }
  }

  lemma TakenStep(free: seq<Range>, i: nat, m: Sectors, t: UsedMap, t': UsedMap)
    requires i < |free| && m <= free[i].len
    requires PrefixTaken(free, |Flatten(free[..i])|, t)
    requires AddsRange(t, Range(free[i].start, m), t')
    ensures PrefixTaken(free, |Flatten(free[..i])| + m, t')
    ensures m == free[i].len ==> |Flatten(free[..i])| + m == |Flatten(free[..i + 1])|
  {
    FlatSplit(free, i);
    var flat, n := Flatten(free), |Flatten(free[..i])|;
    assert flat[..n + m] == flat[..n] + Span(free[i].start, m);
    forall x ensures x in Span(free[i].start, m) <==> Range(free[i].start, m).Has(x) {
      if Range(free[i].start, m).Has(x) { assert Span(free[i].start, m)[x - free[i].start] == x; }
    }
  }

  lemma TakenMeaning(limit: Sectors, u: UsedMap, free: seq<Range>, n: nat, t: UsedMap)
    requires Wf(limit, t) && Flatten(free) == FreeSeq(limit, u)
    requires PrefixTaken(free, n, t)
    ensures Flatten(Ranges(t)) == FreeSeq(limit, u)[..n]
    ensures Disjoint(u, t)
  {
    var fs := FreeSeq(limit, u);
    RangesAreUsed(limit, t);
    FreeFromElems(t, 0, limit);
    forall x
      ensures x in fs[..n] <==> x in UsedFrom(t, 0, limit)
      ensures Covers(t, x) ==> !Covers(u, x)
    {
      FreeFromElem(u, 0, limit, x);
      PrefixElem(fs, n, x);
      assert Covers(t, x) <==> x in fs[..n];
    }
    FreeFromAscending(u, 0, limit);
    AscendingUnique(fs[..n], UsedFrom(t, 0, limit));
  }

  lemma PrefixElem(s: seq<int>, n: nat, x: int)
    requires n <= |s|
    ensures x in s[..n] ==> x in s
  {
  }

  lemma RestIsFree(limit: Sectors, u: UsedMap, amount: nat, n: nat, t: UsedMap, u': UsedMap)
    requires n == Min(amount, |FreeSeq(limit, u)|) && Wf(limit, t) && Wf(limit, u')
    requires Flatten(Ranges(t)) == FreeSeq(limit, u)[..n]
    requires forall x :: Covers(u', x) <==> Covers(u, x) || Covers(t, x)
    ensures Taken(limit, u, amount, t, u')
  {
    var fs := FreeSeq(limit, u);
    FreeFromAscending(u, 0, limit);
    RangesAreUsed(limit, t);
    assert fs == fs[..n] + fs[n..];
    forall x ensures x in fs[n..] <==> 0 <= x < limit && !Covers(u', x) {
      FreeFromElem(u, 0, limit, x);
      FreeFromElem(t, 0, limit, x);
      SuffixElem(fs, n, x);
    }
    FreeSeqIs(limit, u', fs[n..]);
  }

  lemma SuffixElem(s: seq<int>, n: nat, x: int)
    requires Ascending(s) && n <= |s|
    ensures x in s[n..] <==> x in s && x !in s[..n]
  {
  }
}
